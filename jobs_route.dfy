/**
 * The `/jobs` page (`app/routes/jobs.tsx`): the loader turns the URL's query
 * parameters into a search filter and requests the matching jobs; the page
 * renders a one-line summary of the active filter.
 */
module JobsRoute {
  import opened Wrappers
  import opened UrlParams
  import Text
  import Types
  import Api
  import MockHandlers
  import Utils

  /** The filter object the loader builds; `None` is `undefined`. */
  datatype SearchFilter = SearchFilter(
    company: Option<string>,
    career: Option<string>,
    employmentType: Option<string>,
    title: Option<string>)

  /** `value || undefined`: a missing or empty parameter becomes `undefined`. */
  function OrUndefined(v: Option<string>): (r: Option<string>)
    ensures r.None? <==> v.None? || v.value == ""
    ensures r.Some? ==> r == v && r.value != ""
  {
    if v.Some? && v.value != "" then v else None
  }

  /** The loader's filter, read from the request URL's parameters. */
  function LoaderFilter(params: seq<Pair>): (f: SearchFilter)
    ensures f.company == OrUndefined(FirstValue(params, "company"))
    ensures f.career == OrUndefined(FirstValue(params, "career"))
    ensures f.employmentType == OrUndefined(FirstValue(params, "employmentType"))
    ensures f.title == OrUndefined(FirstValue(params, "title"))
  {
    SearchFilter(OrUndefined(FirstValue(params, "company")),
                 OrUndefined(FirstValue(params, "career")),
                 OrUndefined(FirstValue(params, "employmentType")),
                 OrUndefined(FirstValue(params, "title")))
  }

  /** Every field of a loader filter is either `undefined` or non-empty. */
  predicate Normal(f: SearchFilter) {
    && (f.company.Some? ==> f.company.value != "")
    && (f.career.Some? ==> f.career.value != "")
    && (f.employmentType.Some? ==> f.employmentType.value != "")
    && (f.title.Some? ==> f.title.value != "")
  }

  lemma LoaderFilterNormal(params: seq<Pair>)
    ensures Normal(LoaderFilter(params))
  {
  }

  function Field(v: Option<string>): Api.FieldValue {
    if v.Some? then Api.StrValue(v.value) else Api.Undefined
  }

  /** The object `JobsApi.getAll` receives: the four keys in the order the literal lists them. */
  function FilterObject(f: SearchFilter): Api.FilterObject {
    [("company", Field(f.company)), ("career", Field(f.career)),
     ("employmentType", Field(f.employmentType)), ("title", Field(f.title))]
  }

  /** The pairs a present, non-empty field contributes. */
  function Present(name: string, v: Option<string>): seq<Pair> {
    if v.Some? && v.value != "" then [(name, v.value)] else []
  }

  /** The request carries exactly the set fields, in the order company, career, employment type, title. */
  lemma {:induction false} LoaderQueryPairs(f: SearchFilter)
    ensures Api.QueryPairs(FilterObject(f)) ==
      Present("company", f.company) + Present("career", f.career)
      + Present("employmentType", f.employmentType) + Present("title", f.title)
  {
    var obj := FilterObject(f);
    assert obj == [obj[0]] + [obj[1]] + [obj[2]] + [obj[3]];
    Api.QueryPairsAppend([obj[0]] + [obj[1]] + [obj[2]], [obj[3]]);
    Api.QueryPairsAppend([obj[0]] + [obj[1]], [obj[2]]);
    Api.QueryPairsAppend([obj[0]], [obj[1]]);
    Api.SingleFieldQuery("company", if f.company.Some? then f.company.value else "");
    Api.SingleFieldQuery("career", if f.career.Some? then f.career.value else "");
    Api.SingleFieldQuery("employmentType", if f.employmentType.Some? then f.employmentType.value else "");
    Api.SingleFieldQuery("title", if f.title.Some? then f.title.value else "");
    assert [obj[0]][..0] == [] && [obj[1]][..0] == [] && [obj[2]][..0] == [] && [obj[3]][..0] == [];
  }

  lemma ValuesOfPresent(name: string, v: Option<string>, other: string)
    ensures ValuesOf(Present(name, v), other) == if other == name && v.Some? && v.value != "" then [v.value] else []
  {
    var p := Present(name, v);
    if p != [] {
      assert p[1..] == [];
    }
  }

  lemma {:induction false} ValuesOfLoaderPairs(f: SearchFilter, name: string)
    ensures ValuesOf(Api.QueryPairs(FilterObject(f)), name) ==
      ValuesOf(Present("company", f.company), name) + ValuesOf(Present("career", f.career), name)
      + ValuesOf(Present("employmentType", f.employmentType), name) + ValuesOf(Present("title", f.title), name)
  {
    LoaderQueryPairs(f);
    var a, b, c, d := Present("company", f.company), Present("career", f.career),
                      Present("employmentType", f.employmentType), Present("title", f.title);
    ValuesOfAppend(a + b + c, d, name);
    ValuesOfAppend(a + b, c, name);
    ValuesOfAppend(a, b, name);
  }

  /** The field of `f` that parameter `name` carries, `None` for any other name. */
  function FieldNamed(f: SearchFilter, name: string): Option<string> {
    if name == "company" then f.company
    else if name == "career" then f.career
    else if name == "employmentType" then f.employmentType
    else if name == "title" then f.title
    else None
  }

  /** Reading parameter `name` from the request gives the field it was built from. */
  lemma ReadBackField(f: SearchFilter, name: string)
    requires Normal(f)
    ensures FirstValue(Api.QueryPairs(FilterObject(f)), name) == FieldNamed(f, name)
  {
    ValuesOfLoaderPairs(f, name);
    ValuesOfPresent("company", f.company, name);
    ValuesOfPresent("career", f.career, name);
    ValuesOfPresent("employmentType", f.employmentType, name);
    ValuesOfPresent("title", f.title, name);
  }

  /** What the development server reads back from a request is the loader's filter. */
  lemma LoaderRoundTrip(f: SearchFilter)
    requires Normal(f)
    ensures MockHandlers.QueryOf(Api.QueryPairs(FilterObject(f))) ==
      MockHandlers.JobsQuery(f.company, f.career, f.employmentType, f.title)
  {
    ReadBackField(f, "company");
    ReadBackField(f, "career");
    ReadBackField(f, "employmentType");
    ReadBackField(f, "title");
  }

  /** Two optional parameters the server cannot tell apart: both inactive, or equal. */
  predicate SameEffect(a: Option<string>, b: Option<string>) {
    MockHandlers.Active(a) == MockHandlers.Active(b) && (MockHandlers.Active(a) ==> a == b)
  }

  predicate SameQueryEffect(q1: MockHandlers.JobsQuery, q2: MockHandlers.JobsQuery) {
    && SameEffect(q1.company, q2.company) && SameEffect(q1.career, q2.career)
    && SameEffect(q1.employmentType, q2.employmentType) && SameEffect(q1.title, q2.title)
  }

  /** Queries that agree on which filters are active, and on their values, get the same answer. */
  lemma SameEffectSameAnswer(jobs: seq<Types.JobRecord>, q1: MockHandlers.JobsQuery, q2: MockHandlers.JobsQuery)
    requires SameQueryEffect(q1, q2)
    ensures MockHandlers.ListJobs(jobs, q1) == MockHandlers.ListJobs(jobs, q2)
  {
    MockHandlers.KeepExt(jobs, (j: Types.JobRecord) => MockHandlers.PassesCompany(j, q1),
                               (j: Types.JobRecord) => MockHandlers.PassesCompany(j, q2));
    MockHandlers.KeepExt(jobs, (j: Types.JobRecord) => MockHandlers.MatchesAll(j, q1),
                               (j: Types.JobRecord) => MockHandlers.MatchesAll(j, q2));
  }

  /**
   * Requesting through the page gives the same answer as sending the page's
   * own parameters to the development server: the loader's clean-up of empty
   * values changes nothing the server looks at.
   */
  lemma PageRequestSameAnswer(jobs: seq<Types.JobRecord>, params: seq<Pair>)
    ensures MockHandlers.ListJobs(jobs, MockHandlers.QueryOf(Api.QueryPairs(FilterObject(LoaderFilter(params)))))
         == MockHandlers.ListJobs(jobs, MockHandlers.QueryOf(params))
  {
    var f := LoaderFilter(params);
    LoaderRoundTrip(f);
    SameEffectSameAnswer(jobs, MockHandlers.JobsQuery(f.company, f.career, f.employmentType, f.title),
                         MockHandlers.QueryOf(params));
  }

  const AllJobsText := "전체 채용공고"
  const ResultSuffix := " 조건으로 검색된 결과"
  const PartSeparator := " / "

  /** A truthy field: present and not the empty string. */
  predicate IsSet(v: Option<string>) {
    v.Some? && v.value != ""
  }

  /** 1 for a set field, 0 otherwise. */
  function Flag(b: bool): nat {
    if b then 1 else 0
  }

  /** One summary part, the caption with its `: ` followed by the value, when the field is truthy. */
  function Part(caption: string, v: Option<string>): seq<string> {
    if IsSet(v) then [caption + v.value] else []
  }

  /**
   * The parts in the fixed order company, career, employment type, title: one
   * per set field, each its label, `: ` and the value.
   */
  function FilterParts(f: SearchFilter): (parts: seq<string>)
    ensures |parts| == Flag(IsSet(f.company)) + Flag(IsSet(f.career)) + Flag(IsSet(f.employmentType)) + Flag(IsSet(f.title))
    ensures IsSet(f.company) ==> parts[0] == "회사: " + f.company.value
    ensures IsSet(f.career) ==> parts[Flag(IsSet(f.company))] == "경력: " + f.career.value
    ensures IsSet(f.employmentType) ==>
      parts[Flag(IsSet(f.company)) + Flag(IsSet(f.career))] == "고용형태: " + f.employmentType.value
    ensures IsSet(f.title) ==> parts[|parts| - 1] == "제목: " + f.title.value
  {
    Part("회사: ", f.company) + Part("경력: ", f.career) + Part("고용형태: ", f.employmentType) + Part("제목: ", f.title)
  }

  /**
   * The summary line: the default caption exactly when there are no parts,
   * otherwise text ending in the result suffix.
   */
  function Summary(parts: seq<string>): (text: string)
    ensures text == AllJobsText <==> parts == []
    ensures parts != [] ==> |text| >= |ResultSuffix| && text[|text| - |ResultSuffix|..] == ResultSuffix
  {
    if |parts| > 0 then
      var s := Text.Join(parts, PartSeparator) + ResultSuffix;
      assert |s| >= |ResultSuffix| > |AllJobsText|;
      s
    else AllJobsText
  }

  /** A single part is followed directly by the suffix; otherwise the last part follows the rest after ` / `. */
  lemma SummaryJoinsParts(parts: seq<string>)
    ensures |parts| == 1 ==> Summary(parts) == parts[0] + ResultSuffix
    ensures |parts| >= 2 ==>
      Summary(parts) == Text.Join(parts[..|parts| - 1], " / ") + " / " + parts[|parts| - 1] + ResultSuffix
  {
    if |parts| >= 2 {
      var n := |parts| - 1;
      assert parts == parts[..n] + [parts[n]];
      Utils.JoinAppend(parts[..n], [parts[n]], PartSeparator);
    }
  }

  /** `generateFilterText`: one push per truthy field, then the joined parts or the default caption. */
  method GenerateFilterText(f: SearchFilter) returns (text: string)
    ensures text == Summary(FilterParts(f))
  {
    var filterParts: seq<string> := [];
    if f.company.Some? && f.company.value != "" {
      filterParts := filterParts + ["회사: " + f.company.value];
    }
    assert filterParts == Part("회사: ", f.company);
    if f.career.Some? && f.career.value != "" {
      filterParts := filterParts + ["경력: " + f.career.value];
    }
    assert filterParts == Part("회사: ", f.company) + Part("경력: ", f.career);
    if f.employmentType.Some? && f.employmentType.value != "" {
      filterParts := filterParts + ["고용형태: " + f.employmentType.value];
    }
    assert filterParts == Part("회사: ", f.company) + Part("경력: ", f.career) + Part("고용형태: ", f.employmentType);
    if f.title.Some? && f.title.value != "" {
      filterParts := filterParts + ["제목: " + f.title.value];
    }
    assert filterParts == FilterParts(f);
    text := if |filterParts| > 0 then Text.Join(filterParts, PartSeparator) + ResultSuffix else AllJobsText;
  }

  predicate AnySet(f: SearchFilter) {
    IsSet(f.company) || IsSet(f.career) || IsSet(f.employmentType) || IsSet(f.title)
  }

  /** The default caption appears exactly when no field is set. */
  lemma AllJobsIffNothingSet(f: SearchFilter)
    ensures Summary(FilterParts(f)) == AllJobsText <==> !AnySet(f)
  {
    var parts := FilterParts(f);
    if |parts| > 0 {
      var s := Text.Join(parts, PartSeparator) + ResultSuffix;
      assert |s| >= |ResultSuffix| > |AllJobsText|;
    }
  }

  /** With a field set, the caption names it with its label and ends with the result suffix. */
  lemma SummaryMentionsSetField(f: SearchFilter, k: nat)
    requires k < |FilterParts(f)|
    ensures var text := Summary(FilterParts(f));
      && Text.Contains(text, FilterParts(f)[k])
      && |text| >= |ResultSuffix| && text[|text| - |ResultSuffix|..] == ResultSuffix
  {
    var parts := FilterParts(f);
    var joined := Text.Join(parts, PartSeparator);
    Text.JoinContainsPart(parts, PartSeparator, k);
    Text.ContainsPrefixExtends(joined, ResultSuffix, parts[k]);
  }

  /** A filter with only a company gives `회사: <name> 조건으로 검색된 결과`. */
  lemma CompanyOnlySummary(company: string)
    requires company != ""
    ensures Summary(FilterParts(SearchFilter(Some(company), None, None, None))) == "회사: " + company + ResultSuffix
  {
  }
}
