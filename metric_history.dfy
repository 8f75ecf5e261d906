/**
 * The parameter handling of `get_metric_history`: the query parameters are
 * checked in a fixed order, and a time window, a sort direction and a page
 * offset are chosen. The metric definition lookup is a flag, and the clock
 * reading is a parameter in seconds.
 */
module MetricHistory {
  import opened Wrappers

  /**
   * Why the request is refused: FastAPI's validation of the `Query` bounds,
   * which names every parameter out of range, or an `HTTPException` raised by
   * the handler.
   */
  datatype HttpError =
    | RequestValidation(badPage: bool, badPageSize: bool)
    | HttpException(status: int, detail: string)

  /** The status code of the response. */
  function Status(e: HttpError): int {
    match e
    case RequestValidation(_, _) => 422
    case HttpException(status, _) => status
  }

  const InvalidTimeFilter := HttpException(400, "Invalid time_filter provided.")
  const MetricNotFound := HttpException(404, "Metric not found")
  const InvalidSort := HttpException(400, "Invalid sort param, must be 'asc' or 'desc'")

  /** The width of the window `time_filter` names, in seconds; `None` for any other value. */
  function LookbackSeconds(timeFilter: string): (r: Option<int>)
    ensures r.Some? <==> timeFilter in ["24h", "7d", "30d"]
    ensures r.Some? ==> r.value > 0
  {
    if timeFilter == "24h" then Some(24 * 60 * 60)
    else if timeFilter == "7d" then Some(7 * 24 * 60 * 60)
    else if timeFilter == "30d" then Some(30 * 24 * 60 * 60)
    else None
  }

  /** What the handler asks of the database once every check has passed. */
  datatype Plan = Plan(startTime: int, ascending: bool, offset: int, limit: int)

  /** `offset = (page - 1) * page_size` */
  function Offset(page: int, pageSize: int): int {
    (page - 1) * pageSize
  }

  /**
   * The checks in the order they are made: the `Query` bounds on `page` and
   * `page_size` before the handler runs, then `time_filter`, then the metric
   * lookup, then `sort`. `now` is `datetime.utcnow()` in seconds.
   */
  function PlanHistory(timeFilter: string, metricKnown: bool, sort: string, page: int, pageSize: int, now: int)
    : (r: Result<Plan, HttpError>)
    ensures r.Success? <==>
      && page >= 1 && 1 <= pageSize <= 100
      && timeFilter in ["24h", "7d", "30d"] && metricKnown && sort in ["asc", "desc"]
    ensures r.Success? ==>
      && now - r.value.startTime == LookbackSeconds(timeFilter).value
      && r.value.ascending == (sort == "asc")
      && r.value.offset >= 0 && r.value.offset == Offset(page, pageSize) && r.value.limit == pageSize
    ensures r.Success? && page == 1 ==> r.value.offset == 0
  {
    if page < 1 || pageSize < 1 || pageSize > 100 then
      Failure(RequestValidation(page < 1, pageSize < 1 || pageSize > 100))
    else
      match LookbackSeconds(timeFilter)
      case None => Failure(InvalidTimeFilter)
      case Some(seconds) =>
        if !metricKnown then Failure(MetricNotFound)
        else if sort != "asc" && sort != "desc" then Failure(InvalidSort)
        else Success(Plan(now - seconds, sort == "asc", Offset(page, pageSize), pageSize))
  }

  /**
   * A bad page or page size is refused with 422, naming exactly the
   * parameters out of range, before any other parameter is looked at.
   */
  lemma BoundsCheckedFirst(timeFilter: string, metricKnown: bool, sort: string, page: int, pageSize: int, now: int)
    requires page < 1 || pageSize < 1 || pageSize > 100
    ensures var r := PlanHistory(timeFilter, metricKnown, sort, page, pageSize, now);
      && r == Failure(RequestValidation(page < 1, !(1 <= pageSize <= 100)))
      && Status(r.error) == 422
  {
  }

  /** An unknown time filter is reported even when the metric is unknown and the sort is invalid too. */
  lemma TimeFilterBeforeMetric(timeFilter: string, metricKnown: bool, sort: string, page: int, pageSize: int, now: int)
    requires page >= 1 && 1 <= pageSize <= 100
    requires timeFilter !in ["24h", "7d", "30d"]
    ensures PlanHistory(timeFilter, metricKnown, sort, page, pageSize, now) == Failure(InvalidTimeFilter)
  {
  }

  /** An unknown metric is reported with 404 even when the sort is invalid too. */
  lemma MetricBeforeSort(timeFilter: string, sort: string, page: int, pageSize: int, now: int)
    requires page >= 1 && 1 <= pageSize <= 100
    requires timeFilter in ["24h", "7d", "30d"]
    ensures PlanHistory(timeFilter, false, sort, page, pageSize, now) == Failure(MetricNotFound)
  {
  }

  /** The window ends now and starts 24 hours, 7 days or 30 days back. */
  lemma WindowWidths(sort: string, page: int, pageSize: int, now: int)
    requires page >= 1 && 1 <= pageSize <= 100 && sort in ["asc", "desc"]
    ensures PlanHistory("24h", true, sort, page, pageSize, now).value.startTime == now - 86400
    ensures PlanHistory("7d", true, sort, page, pageSize, now).value.startTime == now - 604800
    ensures PlanHistory("30d", true, sort, page, pageSize, now).value.startTime == now - 2592000
  {
  }

  /** What SQL `OFFSET offset LIMIT limit` selects from the sorted rows `w`. */
  function Paginate<T>(w: seq<T>, offset: nat, limit: nat): (p: seq<T>)
    ensures offset <= |w| ==> p == w[offset..if offset + limit <= |w| then offset + limit else |w|]
    ensures offset >= |w| ==> p == []
    ensures |p| <= limit
  {
    if offset >= |w| then []
    else if offset + limit <= |w| then w[offset..offset + limit]
    else w[offset..]
  }

  /** The requested page of the window. */
  function PageOf<T>(w: seq<T>, page: int, pageSize: nat): seq<T>
    requires page >= 1
  {
    Paginate(w, Offset(page, pageSize), pageSize)
  }

  /** Pages `1 .. n` of the window, one after the other. */
  function FirstPages<T>(w: seq<T>, n: nat, pageSize: nat): seq<T> {
    if n == 0 then [] else FirstPages(w, n - 1, pageSize) + PageOf(w, n, pageSize)
  }

  /**
   * Reading pages 1 to `n` in turn gives the first `n * page_size` rows of the
   * window, each once and in order: consecutive pages neither overlap nor
   * leave a gap.
   */
  lemma {:induction false} PagesTile<T>(w: seq<T>, n: nat, pageSize: nat)
    ensures FirstPages(w, n, pageSize) == w[..if n * pageSize <= |w| then n * pageSize else |w|]
  {
    if n > 0 {
      PagesTile(w, n - 1, pageSize);
      var lo := (n - 1) * pageSize;
      assert Offset(n, pageSize) == lo;
      assert n * pageSize == lo + pageSize;
      var a := if lo <= |w| then lo else |w|;
      var b := if n * pageSize <= |w| then n * pageSize else |w|;
      assert w[..a] + w[a..b] == w[..b];
    }
  }

  /** Enough pages to reach past the end cover the whole window. */
  lemma AllPagesCoverWindow<T>(w: seq<T>, n: nat, pageSize: nat)
    requires n * pageSize >= |w|
    ensures FirstPages(w, n, pageSize) == w
  {
    PagesTile(w, n, pageSize);
  }

  /** Page 1 starts at the first row of the window. */
  lemma FirstPageStartsAtTop<T>(w: seq<T>, pageSize: nat)
    ensures PageOf(w, 1, pageSize) == w[..if pageSize <= |w| then pageSize else |w|]
  {
  }
}
