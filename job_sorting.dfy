/**
 * The three sort orders of the job list (`app/hooks/useJobSorting.ts`).
 * The hook copies the list and sorts the copy in place with one of three
 * comparators. `new Date(s).getTime()` is the parameter `millis`.
 */
module JobSorting {
  import opened Wrappers
  import opened Types
  import Text

  const NoDeadlinePhrase: string := "채용 마감 기한 없음"

  /** The start instant the comparators use; a missing or empty start date counts as 1970-01-01. */
  function StartMillis(j: JobRecord, millis: string -> int): (r: int)
    ensures j.startDate.Some? && j.startDate.value != "" ==> r == millis(j.startDate.value)
    ensures j.startDate.None? || j.startDate.value == "" ==> r == 0
  {
    if j.startDate.Some? && j.startDate.value != "" then millis(j.startDate.value) else 0
  }

  /** `!endDate || period?.includes('채용 마감 기한 없음')`. */
  predicate HasNoDeadline(j: JobRecord): (r: bool)
    ensures j.endDate.None? ==> r
    ensures j.period.Some? && Text.Contains(j.period.value, NoDeadlinePhrase) ==> r
    ensures !r ==> j.endDate.Some? && j.endDate.value != ""
    ensures r ==> j.endDate.None? || j.endDate.value == "" || (j.period.Some? && Text.Contains(j.period.value, NoDeadlinePhrase))
  {
    j.endDate.None? || j.endDate.value == ""
    || (j.period.Some? && Text.Contains(j.period.value, NoDeadlinePhrase))
  }

  function EndMillis(j: JobRecord, millis: string -> int): int
    requires !HasNoDeadline(j)
  {
    millis(j.endDate.value)
  }

  /** The comparator of `order` gives `compare(a, b) <= 0`: `a` may stand before `b`. */
  predicate Precedes(order: SortOption, millis: string -> int, a: JobRecord, b: JobRecord): (r: bool)
    ensures order == Recent ==> (r <==> StartMillis(b, millis) <= StartMillis(a, millis))
    ensures order == Deadline && r && HasNoDeadline(a) ==> HasNoDeadline(b)
    ensures order == Deadline && !HasNoDeadline(a) && HasNoDeadline(b) ==> r
    ensures order == Deadline && HasNoDeadline(a) && HasNoDeadline(b) ==>
      (r <==> StartMillis(b, millis) <= StartMillis(a, millis))
    ensures order == Deadline && !HasNoDeadline(a) && !HasNoDeadline(b) ==>
      (r <==> millis(a.endDate.value) <= millis(b.endDate.value))
    ensures order == ByCompany ==> (r <==> Text.TextLe(a.company, b.company))
  {
    match order
    case Recent => StartMillis(a, millis) >= StartMillis(b, millis)
    case Deadline =>
      if HasNoDeadline(a) && HasNoDeadline(b) then StartMillis(a, millis) >= StartMillis(b, millis)
      else if HasNoDeadline(a) then false
      else if HasNoDeadline(b) then true
      else EndMillis(a, millis) <= EndMillis(b, millis)
    case ByCompany => Text.TextLe(a.company, b.company)
  }

  /** Each comparator is total: of any two jobs, one may stand before the other. */
  lemma PrecedesTotal(order: SortOption, millis: string -> int, a: JobRecord, b: JobRecord)
    ensures Precedes(order, millis, a, b) || Precedes(order, millis, b, a)
  {
    if order == ByCompany {
      Text.TextLeTotal(a.company, b.company);
    }
  }

  /** Each comparator is transitive, so it is a consistent ordering for `Array.prototype.sort`. */
  lemma PrecedesTransitive(order: SortOption, millis: string -> int, a: JobRecord, b: JobRecord, c: JobRecord)
    requires Precedes(order, millis, a, b) && Precedes(order, millis, b, c)
    ensures Precedes(order, millis, a, c)
  {
    if order == ByCompany {
      Text.TextLeTransitive(a.company, b.company, c.company);
    }
  }

  predicate SortedBy(order: SortOption, millis: string -> int, s: seq<JobRecord>) {
    forall i, j :: 0 <= i < j < |s| ==> Precedes(order, millis, s[i], s[j])
  }

  /** `le` is total and transitive, as a sort comparator must be. */
  ghost predicate TotalPreorder<T(!new)>(le: (T, T) -> bool) {
    && (forall x, y :: le(x, y) || le(y, x))
    && (forall x, y, z :: le(x, y) && le(y, z) ==> le(x, z))
  }

  predicate SortedWith<T>(le: (T, T) -> bool, s: seq<T>) {
    forall i, j :: 0 <= i < j < |s| ==> le(s[i], s[j])
  }

  /** `Array.prototype.sort` with comparator `le`, as an insertion sort in place. */
  method SortInPlace<T(!new)>(a: array<T>, le: (T, T) -> bool)
    requires TotalPreorder(le)
    modifies a
    ensures SortedWith(le, a[..])
    ensures multiset(a[..]) == old(multiset(a[..]))
  {
    var i := 0;
    while i < a.Length
      invariant 0 <= i <= a.Length
      invariant SortedWith(le, a[..i])
      invariant multiset(a[..]) == old(multiset(a[..]))
    {
      InsertLast(a, i, le);
      i := i + 1;
    }
    assert a[..a.Length] == a[..];
  }

  /** Moves `a[i]` left until `a[..i + 1]` is sorted. */
  method InsertLast<T(!new)>(a: array<T>, i: nat, le: (T, T) -> bool)
    requires TotalPreorder(le)
    requires i < a.Length && SortedWith(le, a[..i])
    modifies a
    ensures SortedWith(le, a[..i + 1])
    ensures multiset(a[..]) == old(multiset(a[..]))
  {
    var j := i;
    while j > 0 && !le(a[j - 1], a[j])
      invariant 0 <= j <= i
      invariant multiset(a[..]) == old(multiset(a[..]))
      invariant forall p, q :: 0 <= p < q <= i && p != j && q != j ==> le(a[p], a[q])
      invariant forall q :: j < q <= i ==> le(a[j], a[q])
    {
      SwapAdjacent(a, j);
      j := j - 1;
    }
  }

  method SwapAdjacent<T>(a: array<T>, j: nat)
    requires 0 < j < a.Length
    modifies a
    ensures a[j - 1] == old(a[j]) && a[j] == old(a[j - 1])
    ensures forall k :: 0 <= k < a.Length && k != j - 1 && k != j ==> a[k] == old(a[k])
    ensures multiset(a[..]) == old(multiset(a[..]))
  {
    a[j - 1], a[j] := a[j], a[j - 1];
  }

  /** The comparator of each sort order is a total preorder. */
  lemma PrecedesIsTotalPreorder(order: SortOption, millis: string -> int)
    ensures TotalPreorder((x, y) => Precedes(order, millis, x, y))
  {
    var le := (x, y) => Precedes(order, millis, x, y);
    forall x, y ensures le(x, y) || le(y, x) {
      PrecedesTotal(order, millis, x, y);
    }
    forall x, y, z | le(x, y) && le(y, z) ensures le(x, z) {
      PrecedesTransitive(order, millis, x, y, z);
    }
  }

  /**
   * The sorted list `useJobSorting` returns: a reordering of `jobs` (which is
   * copied, never changed) in which every pair stands in comparator order.
   */
  method SortJobs(jobs: seq<JobRecord>, order: SortOption, millis: string -> int) returns (sorted: seq<JobRecord>)
    ensures multiset(sorted) == multiset(jobs)
    ensures SortedBy(order, millis, sorted)
    ensures order == Recent ==>
      forall i, j :: 0 <= i < j < |sorted| ==> StartMillis(sorted[i], millis) >= StartMillis(sorted[j], millis)
    ensures order == Deadline ==>
      forall i, j :: 0 <= i < j < |sorted| && HasNoDeadline(sorted[i]) ==> HasNoDeadline(sorted[j])
    ensures order == Deadline ==>
      forall i, j :: 0 <= i < j < |sorted| && !HasNoDeadline(sorted[j]) ==>
        !HasNoDeadline(sorted[i]) && EndMillis(sorted[i], millis) <= EndMillis(sorted[j], millis)
    ensures order == Deadline ==>
      forall i, j :: 0 <= i < j < |sorted| && HasNoDeadline(sorted[i]) ==>
        StartMillis(sorted[i], millis) >= StartMillis(sorted[j], millis)
    ensures order == ByCompany ==>
      forall i, j :: 0 <= i < j < |sorted| ==> Text.TextLe(sorted[i].company, sorted[j].company)
  {
    var copy := new JobRecord[|jobs|](k requires 0 <= k < |jobs| => jobs[k]);
    assert copy[..] == jobs;
    PrecedesIsTotalPreorder(order, millis);
    SortInPlace(copy, (x, y) => Precedes(order, millis, x, y));
    sorted := copy[..];
  }

  /** '상시채용' (always hiring) in `period` is not a missing deadline. */
  lemma RollingPeriodKeepsDeadline(j: JobRecord)
    requires j.endDate.Some? && j.endDate.value != "" && j.period == Some("상시채용")
    ensures !HasNoDeadline(j)
  {
    Text.ContainsLonger("상시채용", NoDeadlinePhrase);
  }

  /** The no-deadline phrase in `period` overrides an end date. */
  lemma NoDeadlinePeriodOverridesEndDate(j: JobRecord)
    requires j.period == Some(NoDeadlinePhrase)
    ensures HasNoDeadline(j)
  {
    Text.ContainsSelf(NoDeadlinePhrase);
  }

  /** A typed `Job` carries no `period`, so it lacks a deadline exactly when its end date is missing. */
  lemma TypedJobDeadline(j: Job)
    ensures HasNoDeadline(FromJob(j)) <==> j.endDate.None? || j.endDate.value == ""
  {
  }

  /** The state of the hook: the chosen order, `'recent'` at first. */
  class SortState {
    var sortBy: SortOption

    constructor ()
      ensures sortBy == Recent
    {
      sortBy := Recent;
    }

    /** `setSortBy`. */
    method SetSortBy(option: SortOption)
      modifies this
      ensures sortBy == option
    {
      sortBy := option;
    }

    /** `sortedJobs`: the jobs in the chosen order. */
    method SortedJobs(jobs: seq<JobRecord>, millis: string -> int) returns (sorted: seq<JobRecord>)
      ensures multiset(sorted) == multiset(jobs)
      ensures SortedBy(sortBy, millis, sorted)
    {
      sorted := SortJobs(jobs, sortBy, millis);
    }
  }
}
