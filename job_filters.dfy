/**
 * The filter state of the job list, kept in the URL query
 * (`app/hooks/useJobFilters.ts`): the derived `JobFilter`, and the three
 * updates that build a new query from the current one. The router's
 * `setSearchParams` is represented by the returned pair list.
 */
module JobFilters {
  import opened Wrappers
  import opened Types
  import opened UrlParams

  const CompanyParam: string := "company"
  const CareerParam: string := "career"
  const KeywordParam: string := "keyword"

  /** The two multi-valued filters `toggleFilter` accepts. */
  datatype FilterKind = CompanyFilter | CareerFilter

  function ParamName(kind: FilterKind): string {
    match kind
    case CompanyFilter => CompanyParam
    case CareerFilter => CareerParam
  }

  /** The `filters` derivation: all company values, all career values, the first keyword or ''. */
  function FiltersOf(params: seq<Pair>): (f: JobFilter)
    ensures f.companies == ValuesOf(params, CompanyParam)
    ensures f.careers == ValuesOf(params, CareerParam)
    ensures ValuesOf(params, KeywordParam) == [] ==> f.keyword == ""
    ensures ValuesOf(params, KeywordParam) != [] ==> f.keyword == ValuesOf(params, KeywordParam)[0]
  {
    var keyword := FirstValue(params, KeywordParam);
    JobFilter(ValuesOf(params, CompanyParam), ValuesOf(params, CareerParam),
              if keyword.Some? && keyword.value != "" then keyword.value else "")
  }

  /** `values.filter(v => v !== value)`. */
  function RemoveAll(values: seq<string>, value: string): (r: seq<string>)
    ensures forall v :: v in r <==> v in values && v != value
    ensures |r| <= |values|
  {
    if values == [] then []
    else (if values[0] == value then [] else [values[0]]) + RemoveAll(values[1..], value)
  }

  /** Removing a value that is not there changes nothing. */
  lemma {:induction false} RemoveAllAbsent(values: seq<string>, value: string)
    requires value !in values
    ensures RemoveAll(values, value) == values
  {
    if values != [] {
      RemoveAllAbsent(values[1..], value);
      assert values == [values[0]] + values[1..];
    }
  }

  lemma {:induction false} RemoveAllAppend(xs: seq<string>, ys: seq<string>, value: string)
    ensures RemoveAll(xs + ys, value) == RemoveAll(xs, value) + RemoveAll(ys, value)
  {
    if xs != [] {
      RemoveAllAppend(xs[1..], ys, value);
      assert (xs + ys)[1..] == xs[1..] + ys;
    } else {
      assert xs + ys == ys;
    }
  }

  /** The new value list of the toggled filter: the value removed if present, appended if not. */
  function Toggled(values: seq<string>, value: string): (r: seq<string>)
    ensures value in r <==> value !in values
    ensures forall v :: v != value ==> (v in r <==> v in values)
  {
    if value in values then RemoveAll(values, value) else values + [value]
  }

  /** Toggling a value that was absent, twice, gives back the original list. */
  lemma ToggleAbsentTwiceRestores(values: seq<string>, value: string)
    requires value !in values
    ensures Toggled(Toggled(values, value), value) == values
  {
    RemoveAllAppend(values, [value], value);
    RemoveAllAbsent(values, value);
  }

  /** The pairs `(name, v)` for each `v` of `values`, in order. */
  function NamedPairs(name: string, values: seq<string>): (r: seq<Pair>)
    ensures |r| == |values|
    ensures forall i :: 0 <= i < |r| ==> r[i] == (name, values[i])
  {
    seq(|values|, i requires 0 <= i < |values| => (name, values[i]))
  }

  lemma NamedPairsSnoc(name: string, values: seq<string>, v: string)
    ensures NamedPairs(name, values + [v]) == NamedPairs(name, values) + [(name, v)]
  {
  }

  lemma {:induction false} NamedPairsValues(name: string, values: seq<string>, other: string)
    ensures ValuesOf(NamedPairs(name, values), other) == if other == name then values else []
    ensures Without(NamedPairs(name, values), name) == []
  {
    if values != [] {
      NamedPairsValues(name, values[1..], other);
      var ps := NamedPairs(name, values);
      assert ps[1..] == NamedPairs(name, values[1..]);
    }
  }

  /** `values.forEach(v => params.append(name, v))`. */
  method AppendEach(params: SearchParams, name: string, values: seq<string>)
    modifies params
    ensures params.entries == old(params.entries) + NamedPairs(name, values)
  {
    var i := 0;
    while i < |values|
      invariant 0 <= i <= |values|
      invariant params.entries == old(params.entries) + NamedPairs(name, values[..i])
    {
      NamedPairsSnoc(name, values[..i], values[i]);
      assert values[..i + 1] == values[..i] + [values[i]];
      params.Append(name, values[i]);
      i := i + 1;
    }
    assert values[..i] == values;
  }

  /** Deleting a name and appending a new value list for it touches no other name. */
  lemma ReplacedValuesFacts(current: seq<Pair>, name: string, values: seq<string>)
    ensures var next := Without(current, name) + NamedPairs(name, values);
      && ValuesOf(next, name) == values
      && Without(next, name) == Without(current, name)
      && forall other :: other != name ==> ValuesOf(next, other) == ValuesOf(current, other)
  {
    var kept := Without(current, name);
    var added := NamedPairs(name, values);
    ValuesOfAppend(kept, added, name);
    ValuesOfWithout(current, name, name);
    NamedPairsValues(name, values, name);
    WithoutAppend(kept, added, name);
    WithoutWithout(current, name, name);
    WithoutAbsent(kept, name);
    forall other | other != name
      ensures ValuesOf(kept + added, other) == ValuesOf(current, other)
    {
      ValuesOfAppend(kept, added, other);
      ValuesOfWithout(current, name, other);
      NamedPairsValues(name, values, other);
    }
  }

  /**
   * `toggleFilter(kind, value)`: every pair of the toggled filter is deleted and
   * its new value list is appended at the end; every other pair is kept, in order.
   */
  method ToggleFilter(current: seq<Pair>, kind: FilterKind, value: string) returns (next: seq<Pair>)
    ensures next == Without(current, ParamName(kind)) + NamedPairs(ParamName(kind), Toggled(ValuesOf(current, ParamName(kind)), value))
    ensures ValuesOf(next, ParamName(kind)) == Toggled(ValuesOf(current, ParamName(kind)), value)
    ensures Without(next, ParamName(kind)) == Without(current, ParamName(kind))
    ensures forall other :: other != ParamName(kind) ==> ValuesOf(next, other) == ValuesOf(current, other)
  {
    var name := ParamName(kind);
    var currentValues := ValuesOf(current, name);
    var params := new SearchParams(current);
    params.Delete(name);
    var toAppend := if value in currentValues then RemoveAll(currentValues, value) else currentValues + [value];
    AppendEach(params, name, toAppend);
    next := params.entries;
    ReplacedValuesFacts(current, name, toAppend);
  }

  /**
   * `setKeyword(keyword)`: a non-empty keyword leaves exactly one keyword pair,
   * holding it; '' removes every keyword pair. Other pairs are kept, in order.
   */
  method SetKeyword(current: seq<Pair>, keyword: string) returns (next: seq<Pair>)
    ensures keyword != "" ==> next == SetValue(current, KeywordParam, keyword)
    ensures keyword == "" ==> next == Without(current, KeywordParam)
    ensures ValuesOf(next, KeywordParam) == if keyword != "" then [keyword] else []
    ensures Without(next, KeywordParam) == Without(current, KeywordParam)
    ensures FiltersOf(next).keyword == keyword
  {
    var params := new SearchParams(current);
    if keyword != "" {
      params.Set(KeywordParam, keyword);
    } else {
      params.Delete(KeywordParam);
      ValuesOfWithout(current, KeywordParam, KeywordParam);
      WithoutWithout(current, KeywordParam, KeywordParam);
      WithoutAbsent(Without(current, KeywordParam), KeywordParam);
    }
    next := params.entries;
  }

  /** `clearAllFilters`: an empty query, so every derived filter is empty. */
  function ClearAllFilters(): (r: seq<Pair>)
    ensures FiltersOf(r) == JobFilter([], [], "")
    ensures forall name :: ValuesOf(r, name) == []
  {
    []
  }
}
