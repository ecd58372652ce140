/**
  `GET /api/careers`: the job-listing endpoint reads `page` and `limit` from
  the query string, repairs unusable values, turns them into the inclusive
  row window `from..to`, and adds a filter per non-empty search parameter.
  The database's answer is a parameter.
*/
module CareersRoute {
  import opened Wrappers
  import opened Text
  import opened JsNumber
  import SearchParams

  const DefaultLimit: real := 10.0
  const MaxLimit: real := 50.0

  /** The conditions added to the `jobs` query, in the order they are added. */
  datatype Filter =
    | StatusIs(status: string)
    | TitleLike(pattern: string)   // case-insensitive `LIKE`: '%' and '_' are wildcards
    | DepartmentIs(department: string)
    | LocationIs(location: string)
    | EmploymentTypeIs(employmentType: string)

  /** Rows `from..to` (both inclusive) of the jobs matching every filter. */
  datatype Query = Query(from: real, to: real, filters: seq<Filter>)

  datatype CareersResponse = Jobs(rows: seq<string>) | ServerError

  /** `page`: a missing, non-finite or sub-1 page becomes 1. */
  function PageOf(param: Option<string>): (page: real)
    ensures page >= 1.0
    ensures var n := ToNumber(param.GetOr("1"));
      page == (if IsFinite(n) && n.v >= 1.0 then n.v else 1.0)
  {
    var n := ToNumber(param.GetOr("1"));
    if !IsFinite(n) || Less(n, 1.0) then 1.0 else n.v
  }

  /** `limit`: a missing, non-finite or sub-1 limit becomes 10; above 50 it is capped. */
  function LimitOf(param: Option<string>): (limit: real)
    ensures 1.0 <= limit <= MaxLimit
    ensures var n := ToNumber(param.GetOr("10"));
      limit == (if !IsFinite(n) || n.v < 1.0 then DefaultLimit else if n.v > MaxLimit then MaxLimit else n.v)
  {
    var n := ToNumber(param.GetOr("10"));
    var limit := if !IsFinite(n) || Less(n, 1.0) then DefaultLimit else n.v;
    if limit > MaxLimit then MaxLimit else limit
  }

  /** `from = (page - 1) * limit`, `to = from + limit - 1` */
  function Window(page: real, limit: real): (r: (real, real))
    requires page >= 1.0 && limit >= 1.0
    ensures r.0 >= 0.0
    ensures r.1 - r.0 + 1.0 == limit
  {
    var from := (page - 1.0) * limit;
    (from, from + limit - 1.0)
  }

  /**
    The filters: status 'active' always, then one per non-empty parameter, and
    nothing else. The search text is pasted into the `ilike` pattern `%q%`
    unescaped, so '%' and '_' in it act as wildcards.
  */
  function Filters(q: string, department: string, location: string, employmentType: string): (fs: seq<Filter>)
    ensures |fs| >= 1 && fs[0] == StatusIs("active")
    ensures TitleLike("%" + q + "%") in fs <==> q != ""
    ensures DepartmentIs(department) in fs <==> department != ""
    ensures LocationIs(location) in fs <==> location != ""
    ensures EmploymentTypeIs(employmentType) in fs <==> employmentType != ""
    ensures |fs| <= 5
    ensures forall f :: f in fs ==>
      || f == StatusIs("active")
      || (q != "" && f == TitleLike("%" + q + "%"))
      || (department != "" && f == DepartmentIs(department))
      || (location != "" && f == LocationIs(location))
      || (employmentType != "" && f == EmploymentTypeIs(employmentType))
  {
    [StatusIs("active")]
      + (if q != "" then [TitleLike("%" + q + "%")] else [])
      + (if department != "" then [DepartmentIs(department)] else [])
      + (if location != "" then [LocationIs(location)] else [])
      + (if employmentType != "" then [EmploymentTypeIs(employmentType)] else [])
  }

  /** The query parameter `name`, with a missing one read as empty. */
  function ParamOr(p: SearchParams.Params, name: string): (v: string)
    ensures SearchParams.Get(p, name).Some? ==> v == SearchParams.Get(p, name).value
    ensures SearchParams.Get(p, name).None? ==> v == ""
  {
    SearchParams.Get(p, name).GetOr("")
  }

  /** The query the endpoint sends. */
  function BuildQuery(p: SearchParams.Params): (q: Query)
    ensures q.from >= 0.0
    ensures q.to - q.from + 1.0 == LimitOf(SearchParams.Get(p, "limit"))
    ensures (q.from, q.to) == Window(PageOf(SearchParams.Get(p, "page")), LimitOf(SearchParams.Get(p, "limit")))
    ensures q.filters == Filters(ParamOr(p, "q"), ParamOr(p, "department"), ParamOr(p, "location"), ParamOr(p, "employmentType"))
  {
    var page := PageOf(SearchParams.Get(p, "page"));
    var limit := LimitOf(SearchParams.Get(p, "limit"));
    var w := Window(page, limit);
    Query(w.0, w.1, Filters(ParamOr(p, "q"), ParamOr(p, "department"), ParamOr(p, "location"), ParamOr(p, "employmentType")))
  }

  /** `GET`: the rows found, an absent result read as none, or 500 on a database error. */
  function Get(outcome: Result<Option<seq<string>>, string>): (r: CareersResponse)
    ensures r == ServerError <==> outcome.Failure?
    ensures outcome.Success? && outcome.value.None? ==> r == Jobs([])
    ensures outcome.Success? && outcome.value.Some? ==> r == Jobs(outcome.value.value)
  {
    match outcome
    case Failure(_) => ServerError
    case Success(data) => Jobs(data.GetOr([]))
  }

  /** Consecutive pages of one size tile the rows: page p+1 starts right after page p ends. */
  lemma PagesAdjacent(page: real, limit: real)
    requires page >= 1.0 && limit >= 1.0
    ensures Window(page + 1.0, limit).0 == Window(page, limit).1 + 1.0
  {
  }

  /** A page or limit written as a natural number in range is taken as written. */
  lemma NumeralsInRangeKept(page: nat, limit: nat)
    requires 1 <= page && (page as real) < OverflowBound
    requires 1 <= limit <= 50
    ensures PageOf(Some(NatToString(page))) == page as real
    ensures LimitOf(Some(NatToString(limit))) == limit as real
  {
    PageNumeralKept(page);
    LimitNumeralKept(limit);
  }

  lemma PageNumeralKept(page: nat)
    requires 1 <= page && (page as real) < OverflowBound
    ensures PageOf(Some(NatToString(page))) == page as real
  {
    NumeralParam(page, "1");
  }

  lemma LimitNumeralKept(limit: nat)
    requires 1 <= limit <= 50
    ensures LimitOf(Some(NatToString(limit))) == limit as real
  {
    assert (limit as real) < OverflowBound;
    NumeralParam(limit, "10");
    assert ToNumber(Some(NatToString(limit)).GetOr("10")) == Fin(limit as real);
  }

  /** A numeral parameter that is present reads as its value, whatever the default. */
  lemma NumeralParam(n: nat, default: string)
    requires (n as real) < OverflowBound
    ensures ToNumber(Some(NatToString(n)).GetOr(default)) == Fin(n as real)
  {
    ToNumberOfNat(n);
    RoundedNat(n);
  }

  /** A numeral parameter beyond the double range reads as Infinity. */
  lemma HugeNumeralParam(n: nat, default: string)
    requires (n as real) >= OverflowBound
    ensures ToNumber(Some(NatToString(n)).GetOr(default)) == Inf(true)
  {
    ToNumberOfNat(n);
  }

  /** An infinite limit falls back to the default ... */
  lemma InfiniteLimitIsDefault()
    ensures LimitOf(Some("Infinity")) == DefaultLimit
  {
    InfinityExamples();
    assert ToNumber("Infinity") == Inf(true);
  }

  /** ... while a merely large one is capped ... */
  lemma LargeLimitCapped(limit: nat)
    requires limit > 50 && (limit as real) < OverflowBound
    ensures LimitOf(Some(NatToString(limit))) == MaxLimit
  {
    NumeralParam(limit, "10");
  }

  /** ... and one too large for a double overflows to Infinity and falls back too; so does such a page. */
  lemma HugeNumeralsAreDefault(n: nat)
    requires (n as real) >= OverflowBound
    ensures LimitOf(Some(NatToString(n))) == DefaultLimit
    ensures PageOf(Some(NatToString(n))) == 1.0
  {
    HugeNumeralParam(n, "10");
    HugeNumeralParam(n, "1");
  }

  /** Unreadable or missing parameters give the first page of ten. */
  lemma MissingParametersDefault()
    ensures PageOf(Some("abc")) == 1.0
    ensures PageOf(None) == 1.0 && LimitOf(None) == DefaultLimit
  {
    WordIsNaN();
    assert ToNumber("abc") == NaN;
    ToNumberOfNat(1);
    ToNumberOfNat(10);
    assert NatToString(1) == "1";
    assert NatToString(10) == "10";
    assert ToNumber("1") == Fin(1.0);
    assert ToNumber("10") == Fin(10.0);
  }
}
