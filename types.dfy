/**
 * The job-listing data model and its constant lookup tables
 * (`app/lib/types.ts`), plus the shape of a job record as it actually
 * reaches the sort and the development server.
 */
module Types {
  import opened Wrappers

  /** Career level of a posting: 신입 (new graduate), 경력 (experienced), 인턴 (intern). */
  datatype CareerType = NewGrad | Experienced | Intern

  /** The string value each career level carries in the source. */
  function CareerLabel(c: CareerType): string {
    match c
    case NewGrad => "신입"
    case Experienced => "경력"
    case Intern => "인턴"
  }

  /** Reading a career level back from its string value. */
  function CareerFromLabel(s: string): (r: Option<CareerType>)
    ensures forall c :: CareerLabel(c) == s ==> r == Some(c)
    ensures r.Some? ==> CareerLabel(r.value) == s
  {
    if s == "신입" then Some(NewGrad)
    else if s == "경력" then Some(Experienced)
    else if s == "인턴" then Some(Intern)
    else None
  }

  /** Every career level's string value reads back as that level. */
  lemma CareerLabelRoundTrip(c: CareerType)
    ensures CareerFromLabel(CareerLabel(c)) == Some(c)
  {
  }

  /** Employment type: 정규직 (permanent) or 비정규직 (non-permanent). */
  datatype EmploymentType = Permanent | NonPermanent

  function EmploymentLabel(e: EmploymentType): string {
    match e
    case Permanent => "정규직"
    case NonPermanent => "비정규직"
  }

  /** A job posting as the type declaration states it: no `period` field. */
  datatype Job = Job(
    id: string,
    title: string,
    company: string,
    careers: seq<CareerType>,
    employmentType: EmploymentType,
    startDate: Option<string>,
    endDate: Option<string>,
    url: string)

  /**
   * A job record as the sort and the development server meet it at run time:
   * the fields of `Job`, except that the plural `careers` may be missing,
   * and the singular `career` and the free-text `period` may be present.
   */
  datatype JobRecord = JobRecord(
    id: string,
    title: string,
    company: string,
    careers: Option<seq<CareerType>>,
    career: Option<CareerType>,
    employmentType: EmploymentType,
    startDate: Option<string>,
    endDate: Option<string>,
    period: Option<string>,
    url: string)

  /** A typed `Job` seen as a run-time record: it has `careers`, no `career`, no `period`. */
  function FromJob(j: Job): JobRecord
  {
    JobRecord(j.id, j.title, j.company, Some(j.careers), None, j.employmentType,
              j.startDate, j.endDate, None, j.url)
  }

  /**
   * The filter the job hooks derive from the URL. `careers` holds plain strings
   * because the source fills it with an unchecked `as CareerType[]` cast.
   */
  datatype JobFilter = JobFilter(companies: seq<string>, careers: seq<string>, keyword: string)

  datatype SortOption = Recent | Deadline | ByCompany

  /** The string value of each sort option. */
  function SortValue(o: SortOption): string {
    match o
    case Recent => "recent"
    case Deadline => "deadline"
    case ByCompany => "company"
  }

  datatype SortOptionConfig = SortOptionConfig(value: SortOption, caption: string)

  /** The button caption shown for each sort option. */
  function SortCaption(o: SortOption): string {
    match o
    case Recent => "최신 등록순"
    case Deadline => "마감 임박순"
    case ByCompany => "회사명순"
  }

  datatype BadgeVariant = Default | Primary | Success | Warning | Error

  /** `CAREER_BADGE_VARIANTS`: the badge colour of each career level. */
  function CareerBadgeVariant(c: CareerType): (v: BadgeVariant)
    ensures c == NewGrad <==> v == Success
    ensures c == Experienced <==> v == Primary
    ensures c == Intern <==> v == Warning
  {
    match c
    case NewGrad => Success
    case Experienced => Primary
    case Intern => Warning
  }

  /** `SORT_OPTIONS`: one entry per sort option with distinct values, recent first. */
  function SortOptions(): (r: seq<SortOptionConfig>)
    ensures |r| == 3
    ensures r[0].value == Recent && r[1].value == Deadline && r[2].value == ByCompany
    ensures forall o: SortOption :: SortOptionConfig(o, SortCaption(o)) in r
    ensures forall i, j :: 0 <= i < j < |r| ==> SortValue(r[i].value) != SortValue(r[j].value)
  {
    [SortOptionConfig(Recent, "최신 등록순"),
     SortOptionConfig(Deadline, "마감 임박순"),
     SortOptionConfig(ByCompany, "회사명순")]
  }

  /** `CAREER_OPTIONS`: each career level exactly once, in the order 신입, 경력, 인턴. */
  function CareerOptions(): (r: seq<CareerType>)
    ensures |r| == 3
    ensures CareerLabel(r[0]) == "신입" && CareerLabel(r[1]) == "경력" && CareerLabel(r[2]) == "인턴"
    ensures forall i, j :: 0 <= i < j < |r| ==> r[i] != r[j]
  {
    [NewGrad, Experienced, Intern]
  }

  /** Every career level is listed in `CAREER_OPTIONS`. */
  lemma CareerOptionsCoverAll(c: CareerType)
    ensures c in CareerOptions()
  {
    var r := CareerOptions();
    match c
    case NewGrad => assert r[0] == c;
    case Experienced => assert r[1] == c;
    case Intern => assert r[2] == c;
  }
}
