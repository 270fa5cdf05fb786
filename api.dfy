/**
 * The job API client (`app/lib/api.ts`): the query string built from a filter
 * object, the request URL of `JobsApi.getAll`, the single-field helpers that
 * delegate to it, and the fixed company list. The network request itself is
 * out of the model; the URL it would be sent to is what is computed.
 */
module Api {
  import opened Wrappers
  import opened Types
  import opened UrlParams
  import Text

  /** A property value of the filter object, as `Object.entries` yields it. */
  datatype FieldValue = Undefined | StrValue(s: string) | ListValue(items: seq<string>)

  /** A plain object: its own properties in key order. */
  type FilterObject = seq<(string, FieldValue)>

  /** The object a typed `JobFilter` is at run time, keys in declaration order. */
  function JobFilterObject(f: JobFilter): FilterObject {
    [("companies", ListValue(f.companies)), ("careers", ListValue(f.careers)), ("keyword", StrValue(f.keyword))]
  }

  /** `value !== undefined && value !== ""`; an empty array is neither. */
  predicate Emitted(v: FieldValue) {
    v != Undefined && v != StrValue("")
  }

  /** `value.toString()`: an array becomes its items joined with commas. */
  function ToText(v: FieldValue): (r: string)
    requires v != Undefined
    ensures v.StrValue? ==> r == v.s
    ensures v.ListValue? && |v.items| == 1 ==> r == v.items[0]
    ensures v.ListValue? && v.items == [] ==> r == ""
  {
    match v
    case StrValue(s) => s
    case ListValue(items) => Text.Join(items, ",")
  }

  /** The pairs appended for `obj`: one per emitted property, in key order. */
  function QueryPairs(obj: FilterObject): (r: seq<Pair>)
    ensures |r| <= |obj|
  {
    if obj == [] then []
    else
      var last := obj[|obj| - 1];
      QueryPairs(obj[..|obj| - 1]) + (if Emitted(last.1) then [(last.0, ToText(last.1))] else [])
  }

  /**
   * The query string for an optional filter: empty when there is none, and for
   * a filter empty exactly when none of its properties is emitted.
   */
  function QueryString(filter: Option<FilterObject>): (q: string)
    ensures filter.None? ==> q == ""
    ensures filter.Some? ==> (q == "" <==> forall i :: 0 <= i < |filter.value| ==> !Emitted(filter.value[i].1))
  {
    match filter
    case None => ""
    case Some(obj) =>
      QueryPairsEmptyIff(obj);
      Serialize(QueryPairs(obj))
  }

  /** Property `i` of `obj` is emitted, and as pair `p`. */
  predicate EmitsAt(obj: FilterObject, i: int, p: Pair) {
    0 <= i < |obj| && Emitted(obj[i].1) && p == (obj[i].0, ToText(obj[i].1))
  }

  /** A pair is in the query exactly when some property is emitted as it. */
  lemma {:induction false} QueryPairsMembership(obj: FilterObject, p: Pair)
    ensures p in QueryPairs(obj) <==> exists i :: EmitsAt(obj, i, p)
  {
    if obj != [] {
      var n := |obj| - 1;
      var init := obj[..n];
      QueryPairsMembership(init, p);
      if p in QueryPairs(obj) {
        if p in QueryPairs(init) {
          var i :| EmitsAt(init, i, p);
          assert EmitsAt(obj, i, p);
        } else {
          assert EmitsAt(obj, n, p);
        }
      }
      if exists i :: EmitsAt(obj, i, p) {
        var i :| EmitsAt(obj, i, p);
        if i < n {
          assert EmitsAt(init, i, p);
        }
      }
    }
  }

  /** The query keeps key order: pairs from earlier properties come first. */
  lemma {:induction false} QueryPairsAppend(a: FilterObject, b: FilterObject)
    ensures QueryPairs(a + b) == QueryPairs(a) + QueryPairs(b)
    decreases |b|
  {
    if b == [] {
      assert a + b == a;
    } else {
      var n := |b| - 1;
      var last := b[n];
      var tail: seq<Pair> := if Emitted(last.1) then [(last.0, ToText(last.1))] else [];
      assert (a + b)[..|a + b| - 1] == a + b[..n];
      assert (a + b)[|a + b| - 1] == last;
      assert QueryPairs(a + b) == QueryPairs(a + b[..n]) + tail;
      QueryPairsAppend(a, b[..n]);
    }
  }

  /**
   * `convertFilterToQueryParams`: nothing for a missing filter, otherwise a
   * fresh `URLSearchParams` receives one `append` per emitted property.
   */
  method ConvertFilterToQueryParams(filter: Option<FilterObject>) returns (q: string)
    ensures q == QueryString(filter)
    ensures filter.None? ==> q == ""
  {
    if filter.None? {
      return "";
    }
    var obj := filter.value;
    var params := new SearchParams([]);
    var i := 0;
    while i < |obj|
      invariant 0 <= i <= |obj|
      invariant params.entries == QueryPairs(obj[..i])
    {
      var (key, value) := obj[i];
      assert obj[..i + 1][..i] == obj[..i] && obj[..i + 1][i] == obj[i];
      assert QueryPairs(obj[..i + 1]) ==
        QueryPairs(obj[..i]) + (if Emitted(value) then [(key, ToText(value))] else []);
      if value != Undefined && value != StrValue("") {
        params.Append(key, ToText(value));
      }
      i := i + 1;
    }
    assert obj[..|obj|] == obj;
    q := Serialize(params.entries);
  }

  /** A `JobFilter` always sends both lists, even empty ones, and the keyword only when non-empty. */
  lemma JobFilterQuery(f: JobFilter)
    ensures QueryPairs(JobFilterObject(f)) ==
      [("companies", Text.Join(f.companies, ",")), ("careers", Text.Join(f.careers, ","))]
      + (if f.keyword == "" then [] else [("keyword", f.keyword)])
  {
    var obj := JobFilterObject(f);
    assert obj[..1][..0] == [];
    assert QueryPairs(obj[..1]) == [("companies", Text.Join(f.companies, ","))];
    assert obj[..2][..1] == obj[..1];
    assert QueryPairs(obj[..2]) == QueryPairs(obj[..1]) + [("careers", Text.Join(f.careers, ","))];
    assert obj[..3 - 1] == obj[..2];
  }

  /** The empty filter still produces a query string, with empty values. */
  lemma EmptyJobFilterQuery()
    ensures QueryString(Some(JobFilterObject(JobFilter([], [], "")))) == "companies=&careers="
  {
    JobFilterQuery(JobFilter([], [], ""));
    var pairs := QueryPairs(JobFilterObject(JobFilter([], [], "")));
    assert pairs == [("companies", ""), ("careers", "")];
    var parts := seq(|pairs|, i requires 0 <= i < |pairs| => pairs[i].0 + "=" + pairs[i].1);
    assert |parts| == 2 && parts[1..] == [parts[1]];
    assert Text.Join(parts, "&") == parts[0] + "&" + parts[1];
  }

  /** No pair is appended exactly when no property is emitted. */
  lemma QueryPairsEmptyIff(obj: FilterObject)
    ensures QueryPairs(obj) == [] <==> forall i :: 0 <= i < |obj| ==> !Emitted(obj[i].1)
  {
    if forall i :: 0 <= i < |obj| ==> !Emitted(obj[i].1) {
      if QueryPairs(obj) != [] {
        QueryPairsMembership(obj, QueryPairs(obj)[0]);
      }
    } else {
      var i :| 0 <= i < |obj| && Emitted(obj[i].1);
      QueryPairsMembership(obj, (obj[i].0, ToText(obj[i].1)));
      assert EmitsAt(obj, i, (obj[i].0, ToText(obj[i].1)));
    }
  }

  const DefaultBaseUrl := "http://localhost:3000"

  /** `process.env.API_URL || "http://localhost:3000"`. */
  function BaseUrl(apiUrl: Option<string>): (r: string)
    ensures apiUrl.Some? && apiUrl.value != "" ==> r == apiUrl.value
    ensures apiUrl.None? || apiUrl.value == "" ==> r == DefaultBaseUrl
  {
    if apiUrl.Some? && apiUrl.value != "" then apiUrl.value else DefaultBaseUrl
  }

  /** The `/jobs` URL, with `?` and the query only when the query is non-empty. */
  function JobsUrl(base: string, query: string): (r: string)
    ensures |r| >= |base| + 5 && r[..|base| + 5] == base + "/jobs"
    ensures query == "" <==> |r| == |base| + 5
    ensures query != "" ==> r[|base| + 5..] == "?" + query
  {
    base + "/jobs" + (if query != "" then "?" + query else "")
  }

  /**
   * The URL `JobsApi.getAll(filter)` requests: the bare `/jobs` URL without a
   * filter or when nothing is emitted, `?` and the query otherwise.
   */
  function GetAllUrl(apiUrl: Option<string>, filter: Option<FilterObject>): (url: string)
    ensures filter.None? ==> url == BaseUrl(apiUrl) + "/jobs"
    ensures QueryString(filter) == "" ==> url == BaseUrl(apiUrl) + "/jobs"
    ensures QueryString(filter) != "" ==> url == BaseUrl(apiUrl) + "/jobs" + "?" + QueryString(filter)
  {
    JobsUrl(BaseUrl(apiUrl), QueryString(filter))
  }

  lemma SingleFieldQuery(key: string, value: string)
    ensures QueryPairs([(key, StrValue(value))]) == if value == "" then [] else [(key, value)]
  {
    assert [(key, StrValue(value))][..0] == [];
  }

  /** The query string of one string-valued property: `key=value`, or nothing for an empty value. */
  lemma SingleFieldQueryString(key: string, value: string)
    ensures QueryString(Some([(key, StrValue(value))])) == if value == "" then "" else key + "=" + value
  {
    SingleFieldQuery(key, value);
    if value != "" {
      var parts := seq(1, i requires 0 <= i < 1 => [(key, value)][i].0 + "=" + [(key, value)][i].1);
      assert parts == [key + "=" + value];
    }
  }

  /** `getAll({ [key]: value })`: the jobs URL carrying exactly `key=value`, or the bare URL for ''. */
  function SingleFieldUrl(apiUrl: Option<string>, key: string, value: string): (url: string)
    ensures url == JobsUrl(BaseUrl(apiUrl), if value == "" then "" else key + "=" + value)
  {
    SingleFieldQueryString(key, value);
    GetAllUrl(apiUrl, Some([(key, StrValue(value))]))
  }

  /**
   * `getByCompany(company)`: `getAll({ company })`, which sends exactly
   * `company=<name>`, and nothing for an empty name.
   */
  function GetByCompanyUrl(apiUrl: Option<string>, company: string): (url: string)
    ensures url == JobsUrl(BaseUrl(apiUrl), if company == "" then "" else "company" + "=" + company)
  {
    SingleFieldUrl(apiUrl, "company", company)
  }

  /**
   * `getByCareer(career)`: `getAll({ career })`, which sends exactly
   * `career=<value>`: the singular key, not the filter's `careers`.
   */
  function GetByCareerUrl(apiUrl: Option<string>, career: string): (url: string)
    ensures url == JobsUrl(BaseUrl(apiUrl), if career == "" then "" else "career" + "=" + career)
  {
    SingleFieldUrl(apiUrl, "career", career)
  }

  /** `CompaniesApi.getAll`: a fixed list of three distinct names. */
  function CompaniesGetAll(): (r: seq<string>)
    ensures r == ["NAVER", "KAKAO", "LINE"]
    ensures forall i, k :: 0 <= i < k < |r| ==> r[i] != r[k]
  {
    ["NAVER", "KAKAO", "LINE"]
  }
}
