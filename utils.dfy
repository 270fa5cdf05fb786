/**
 * The string helpers of `app/lib/utils.ts`: truncation, class-name joining,
 * the remaining-days caption, the missing-date branch of date formatting,
 * and the company logo path. Date parsing and locale formatting are
 * parameters.
 */
module Utils {
  import opened Wrappers
  import Text

  /** `s.slice(0, end)`: a negative `end` counts from the end, and the result is clamped to `s`. */
  function SliceTo(s: string, end: int): (r: string)
    ensures end >= 0 ==> r == s[..if end <= |s| then end else |s|]
    ensures end < 0 ==> r == s[..if |s| + end >= 0 then |s| + end else 0]
  {
    if end >= 0 then s[..if end <= |s| then end else |s|]
    else s[..if |s| + end >= 0 then |s| + end else 0]
  }

  const Ellipsis := "..."

  /** `truncateText(text, maxLength)`. */
  function TruncateText(text: string, maxLength: int): (r: string)
    ensures |text| <= maxLength ==> r == text
    ensures |text| > maxLength >= 0 ==> r == text[..maxLength] + Ellipsis && |r| == maxLength + 3
    ensures |text| > maxLength ==> |r| >= 3 && r[|r| - 3..] == Ellipsis
  {
    if |text| <= maxLength then text else SliceTo(text, maxLength) + Ellipsis
  }

  /** With a non-negative limit the result never exceeds the limit plus the ellipsis. */
  lemma TruncateBound(text: string, maxLength: nat)
    ensures |TruncateText(text, maxLength)| <= maxLength + 3
    ensures Text.IsPrefix(TruncateText(text, maxLength)[..if |text| <= maxLength then |text| else maxLength], text)
  {
  }

  /** Truncating a truncated text again changes nothing. */
  lemma TruncateIdempotent(text: string, maxLength: nat)
    ensures TruncateText(TruncateText(text, maxLength), maxLength) == TruncateText(text, maxLength)
  {
    if |text| > maxLength {
      var once := TruncateText(text, maxLength);
      assert once[..maxLength] == text[..maxLength];
    }
  }

  /** The class names `filter(Boolean)` keeps: defined and non-empty, in order. */
  function KeptClasses(classes: seq<Option<string>>): (r: seq<string>)
    ensures |r| <= |classes|
    ensures forall s :: s in r <==> s != "" && Some(s) in classes
  {
    if classes == [] then []
    else
      (if classes[0].Some? && classes[0].value != "" then [classes[0].value] else [])
      + KeptClasses(classes[1..])
  }

  /**
   * `classNames(...classes)`: empty exactly when no class survives the filter,
   * and every surviving class occurs in the result.
   */
  function ClassNames(classes: seq<Option<string>>): (r: string)
    ensures r == "" <==> forall c :: c in classes ==> c.None? || c.value == ""
    ensures forall c :: c in classes && c.Some? && c.value != "" ==> Text.Contains(r, c.value)
  {
    KeptJoinFacts(classes);
    Text.Join(KeptClasses(classes), " ")
  }

  lemma KeptJoinFacts(classes: seq<Option<string>>)
    ensures Text.Join(KeptClasses(classes), " ") == "" <==> forall c :: c in classes ==> c.None? || c.value == ""
    ensures forall c :: c in classes && c.Some? && c.value != "" ==> Text.Contains(Text.Join(KeptClasses(classes), " "), c.value)
  {
    var kept := KeptClasses(classes);
    JoinEmptyIff(kept, " ");
    if kept != [] {
      assert kept[0] in kept;
    }
    forall c | c in classes && c.Some? && c.value != ""
      ensures Text.Contains(Text.Join(kept, " "), c.value)
    {
      assert c.value in kept;
      var k :| 0 <= k < |kept| && kept[k] == c.value;
      Text.JoinContainsPart(kept, " ", k);
    }
  }

  lemma {:induction false} KeptClassesAppend(a: seq<Option<string>>, b: seq<Option<string>>)
    ensures KeptClasses(a + b) == KeptClasses(a) + KeptClasses(b)
  {
    if a != [] {
      var head: seq<string> := if a[0].Some? && a[0].value != "" then [a[0].value] else [];
      assert (a + b)[0] == a[0] && (a + b)[1..] == a[1..] + b;
      assert KeptClasses(a + b) == head + KeptClasses(a[1..] + b);
      assert KeptClasses(a) == head + KeptClasses(a[1..]);
      KeptClassesAppend(a[1..], b);
      assert head + (KeptClasses(a[1..]) + KeptClasses(b)) == (head + KeptClasses(a[1..])) + KeptClasses(b);
    } else {
      assert a + b == b;
    }
  }

  lemma {:induction false} JoinAppend(x: seq<string>, y: seq<string>, sep: string)
    requires x != [] && y != []
    ensures Text.Join(x + y, sep) == Text.Join(x, sep) + sep + Text.Join(y, sep)
  {
    var xy := x + y;
    assert |xy| >= 2 && xy[0] == x[0];
    if |x| > 1 {
      assert xy[1..] == x[1..] + y;
      JoinAppend(x[1..], y, sep);
    } else {
      assert xy[1..] == y;
    }
  }

  lemma {:induction false} JoinEmptyIff(parts: seq<string>, sep: string)
    requires forall s :: s in parts ==> s != ""
    ensures Text.Join(parts, sep) == "" <==> parts == []
  {
    if parts != [] {
      assert parts[0] in parts;
      assert |Text.Join(parts, sep)| >= |parts[0]|;
    }
  }

  /** Splitting the argument list splits the result at one space, unless a side contributes nothing. */
  lemma ClassNamesAppend(a: seq<Option<string>>, b: seq<Option<string>>)
    ensures ClassNames(a + b) ==
      if ClassNames(a) == "" then ClassNames(b)
      else if ClassNames(b) == "" then ClassNames(a)
      else ClassNames(a) + " " + ClassNames(b)
  {
    KeptClassesAppend(a, b);
    JoinEmptyIff(KeptClasses(a), " ");
    JoinEmptyIff(KeptClasses(b), " ");
    var x, y := KeptClasses(a), KeptClasses(b);
    if x == [] {
      assert x + y == y;
    } else if y == [] {
      assert x + y == x;
    } else {
      JoinAppend(x, y, " ");
    }
  }

  const NoDeadline := "상시채용"
  const Closed := "마감됨"
  const DueToday := "오늘 마감"
  const DaysLeftSuffix := "일 남음"

  /**
   * `calculateRemainingDays(endDate)`, with `today` the local day number of
   * the clock and `dayNumber` the local day number of a parsed date string.
   * Both instants are cut to midnight, so the day difference is an integer.
   */
  function CalculateRemainingDays(endDate: Option<string>, today: int, dayNumber: string -> int): (r: string)
    ensures endDate.None? || endDate.value == "" ==> r == NoDeadline
    ensures endDate.Some? && endDate.value != "" ==>
      var d := dayNumber(endDate.value) - today;
      && (d < 0 <==> r == Closed)
      && (d == 0 <==> r == DueToday)
      && (d > 0 ==> r == Text.NatToString(d) + DaysLeftSuffix)
  {
    if endDate.None? || endDate.value == "" then NoDeadline
    else
      var diffDays := dayNumber(endDate.value) - today;
      if diffDays < 0 then Closed
      else if diffDays == 0 then DueToday
      else
        var count := Text.NatToString(diffDays);
        assert Text.IsDigit(count[0]) && !Text.IsDigit(DueToday[0]);
        assert (count + DaysLeftSuffix)[0] == count[0];
        count + DaysLeftSuffix
  }

  /** A caption with days left names the day count, which reads back as the difference. */
  lemma RemainingDaysReadsBack(endDate: string, today: int, dayNumber: string -> int)
    requires endDate != "" && dayNumber(endDate) > today
    ensures var r := CalculateRemainingDays(Some(endDate), today, dayNumber);
      var digits := r[..|r| - |DaysLeftSuffix|];
      |r| > |DaysLeftSuffix| && Text.DigitsValue(digits) == dayNumber(endDate) - today
  {
    var d := dayNumber(endDate) - today;
    var r := CalculateRemainingDays(Some(endDate), today, dayNumber);
    assert r == Text.NatToString(d) + DaysLeftSuffix;
    assert r[..|r| - |DaysLeftSuffix|] == Text.NatToString(d);
    Text.NatToStringRoundTrip(d);
  }

  /** Each day later the count goes up by one: the captions for different future days differ. */
  lemma RemainingDaysDistinct(a: string, b: string, today: int, dayNumber: string -> int)
    requires a != "" && b != "" && dayNumber(a) > today && dayNumber(b) > today
    requires dayNumber(a) != dayNumber(b)
    ensures CalculateRemainingDays(Some(a), today, dayNumber) != CalculateRemainingDays(Some(b), today, dayNumber)
  {
    RemainingDaysReadsBack(a, today, dayNumber);
    RemainingDaysReadsBack(b, today, dayNumber);
  }

  const Undecided := "미정"
  const DateError := "날짜 오류"

  /**
   * `formatDate(dateString)`: "미정" for a missing or empty date; otherwise
   * whatever the locale formatter yields, with a formatter failure (`None`)
   * caught as "날짜 오류".
   */
  function FormatDate(date: Option<string>, format: string -> Option<string>): (r: string)
    ensures date.None? || date.value == "" ==> r == Undecided
    ensures date.Some? && date.value != "" && format(date.value).None? ==> r == DateError
    ensures date.Some? && date.value != "" && format(date.value).Some? ==> r == format(date.value).value
  {
    if date.None? || date.value == "" then Undecided
    else match format(date.value)
      case None => DateError
      case Some(s) => s
  }

  const LogoPrefix := "/images/companies/"
  const LogoSuffix := ".svg"

  /** `getCompanyLogoUrl(company)`. */
  function GetCompanyLogoUrl(company: string): (r: string)
    ensures |r| == |LogoPrefix| + |company| + |LogoSuffix|
    ensures r[..|LogoPrefix|] == LogoPrefix && r[|r| - |LogoSuffix|..] == LogoSuffix
    ensures r[|LogoPrefix|..|r| - |LogoSuffix|] == Text.Lower(company)
  {
    LogoPrefix + Text.Lower(company) + LogoSuffix
  }

  /** Two company names share a logo exactly when they agree up to letter case. */
  lemma LogoUrlSameIff(a: string, b: string)
    ensures GetCompanyLogoUrl(a) == GetCompanyLogoUrl(b) <==> Text.Lower(a) == Text.Lower(b)
  {
    if GetCompanyLogoUrl(a) == GetCompanyLogoUrl(b) {
      var ua, ub := GetCompanyLogoUrl(a), GetCompanyLogoUrl(b);
      assert ua[|LogoPrefix|..|ua| - |LogoSuffix|] == ub[|LogoPrefix|..|ub| - |LogoSuffix|];
    }
  }

  /** The logo of a lower-cased name is the logo of the name. */
  lemma LogoUrlOfLowered(company: string)
    ensures GetCompanyLogoUrl(Text.Lower(company)) == GetCompanyLogoUrl(company)
  {
    Text.LowerIdempotent(company);
  }
}
