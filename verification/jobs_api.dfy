/**
 * `GET /api/v1/jobs`: the query-parameter checks and the projection of each joined job
 * row into the job object the worker app reads. The database query itself is a parameter.
 */
module JobsApi {
  import opened Options

  /** The `jobs.status` column. */
  datatype JobStatus = Open | Scheduling | Scheduled | InProgress | Completed | Paid

  datatype CustomerJoin = CustomerJoin(first_name: string, last_name: string, phone: string, email: string)
  datatype TypeJoin = TypeJoin(name: string, description: Option<string>)
  datatype FormJoin = FormJoin(name: string)

  /** One row of the query: the job's columns, the three joins and the `job_workers(count)` aggregate. */
  datatype JobRow = JobRow(
    id: string,
    company_id: string,
    customer_id: string,
    calendar_id: string,
    appointment_type_id: string,
    title: string,
    description: Option<string>,
    status: JobStatus,
    scheduled_date: Option<string>,
    scheduled_time: Option<string>,
    estimated_duration: Option<int>,
    base_price: Option<int>,
    minimum_price: Option<int>,
    location_address: Option<string>,
    worker_count: Option<int>,
    job_workers: Option<seq<int>>,
    customer: Option<CustomerJoin>,
    appointment_type: Option<TypeJoin>,
    form: Option<FormJoin>,
    created_at: Option<string>,
    updated_at: Option<string>)

  /** The job object of the response. */
  datatype Job = Job(
    id: string,
    title: string,
    description: Option<string>,
    status: JobStatus,
    scheduled_date: Option<string>,
    scheduled_time: Option<string>,
    estimated_duration: Option<int>,
    base_price: Option<int>,
    minimum_price: Option<int>,
    location_address: Option<string>,
    worker_count: int,
    required_workers: int,
    accepted_workers: int,
    customer: Option<CustomerJoin>,
    appointment_type: Option<TypeJoin>,
    form: Option<FormJoin>,
    created_at: Option<string>,
    updated_at: Option<string>)

  /** `worker_count || 1`: a missing or zero count reads as one worker. */
  function WorkersOrOne(wc: Option<int>): (n: int)
    ensures n != 0
    ensures wc.Some? && wc.value != 0 ==> n == wc.value
    ensures wc.None? || wc.value == 0 ==> n == 1
  {
    if wc.Some? && wc.value != 0 then wc.value else 1
  }

  /** `job_workers?.[0]?.count || 0`: the first aggregate row's count, else 0. */
  function AcceptedCount(jw: Option<seq<int>>): (n: int)
    ensures jw.Some? && |jw.value| > 0 ==> n == jw.value[0]
    ensures jw.None? || |jw.value| == 0 ==> n == 0
  {
    match jw
    case Some(counts) => if |counts| > 0 && counts[0] != 0 then counts[0] else 0
    case None => 0
  }

  /** The row's own columns, which the projection copies unchanged. */
  predicate CopiesColumns(row: JobRow, j: Job) {
    j.id == row.id && j.title == row.title && j.description == row.description
    && j.status == row.status && j.scheduled_date == row.scheduled_date
    && j.scheduled_time == row.scheduled_time && j.estimated_duration == row.estimated_duration
    && j.base_price == row.base_price && j.minimum_price == row.minimum_price
    && j.location_address == row.location_address
    && j.customer == row.customer && j.appointment_type == row.appointment_type && j.form == row.form
    && j.created_at == row.created_at && j.updated_at == row.updated_at
  }

  /** One row of the `map`. */
  function Project(row: JobRow): (j: Job)
    ensures CopiesColumns(row, j)
    ensures j.required_workers == j.worker_count && j.required_workers != 0
    ensures row.worker_count.Some? && row.worker_count.value != 0 ==> j.required_workers == row.worker_count.value
    ensures row.worker_count.None? || row.worker_count.value == 0 ==> j.required_workers == 1
    ensures j.accepted_workers == AcceptedCount(row.job_workers)
  {
    Job(row.id, row.title, row.description, row.status, row.scheduled_date, row.scheduled_time,
        row.estimated_duration, row.base_price, row.minimum_price, row.location_address,
        WorkersOrOne(row.worker_count), WorkersOrOne(row.worker_count), AcceptedCount(row.job_workers),
        row.customer, row.appointment_type, row.form, row.created_at, row.updated_at)
  }

  /** A projection loses only the key columns and the raw aggregates. */
  lemma ProjectionInjectiveOnColumns(a: JobRow, b: JobRow)
    requires Project(a) == Project(b)
    ensures a.(company_id := b.company_id, customer_id := b.customer_id, calendar_id := b.calendar_id,
               appointment_type_id := b.appointment_type_id, worker_count := b.worker_count,
               job_workers := b.job_workers) == b
  {
    assert CopiesColumns(a, Project(a)) && CopiesColumns(b, Project(b));
  }

  /** The filters the query runs with. */
  datatype JobsQuery = JobsQuery(companyId: string, status: string)

  /** What the query gives back: an `error`, an exception, or `data` (possibly null). */
  datatype QueryOutcome = QueryFailed | QueryThrew | QueryData(rows: Option<seq<JobRow>>)

  datatype Response =
    | Jobs(jobs: seq<Job>, count: nat)
    | Failure(httpStatus: int, error: string)

  /** `searchParams.get(name)` is `None` when the parameter is absent; `''` is falsy too. */
  predicate Present(p: Option<string>) {
    p.Some? && p.value != ""
  }

  /** The query's filters, or the 400 when `company_id` is missing or empty. */
  function ParseQuery(statusParam: Option<string>, companyParam: Option<string>): (r: Option<JobsQuery>)
    ensures r.Some? <==> Present(companyParam)
    ensures r.Some? ==> r.value.companyId == companyParam.value
    ensures r.Some? && Present(statusParam) ==> r.value.status == statusParam.value
    ensures r.Some? && !Present(statusParam) ==> r.value.status == "open"
  {
    if !Present(companyParam) then None
    else Some(JobsQuery(companyParam.value, if Present(statusParam) then statusParam.value else "open"))
  }

  /** The `map` over the rows, one job per row in query order. */
  function ProjectAll(rows: seq<JobRow>): (jobs: seq<Job>)
    ensures |jobs| == |rows|
    ensures forall i :: 0 <= i < |rows| ==> jobs[i] == Project(rows[i])
  {
    if |rows| == 0 then [] else [Project(rows[0])] + ProjectAll(rows[1..])
  }

  /** The handler, with `fetch` standing for the database query. */
  function Get(statusParam: Option<string>, companyParam: Option<string>, fetch: JobsQuery -> QueryOutcome): (r: Response)
    ensures !Present(companyParam) ==> r == Failure(400, "company_id is required")
    ensures Present(companyParam) ==> match fetch(ParseQuery(statusParam, companyParam).value)
      case QueryFailed => r == Failure(500, "Failed to fetch jobs")
      case QueryThrew => r == Failure(500, "Internal server error")
      case QueryData(rows) =>
        r.Jobs? && r.count == |r.jobs|
        && (rows.None? ==> r.jobs == [])
        && (rows.Some? ==> |r.jobs| == |rows.value|)
        && (rows.Some? ==> forall i :: 0 <= i < |rows.value| ==> r.jobs[i] == Project(rows.value[i]))
  {
    match ParseQuery(statusParam, companyParam)
    case None => Failure(400, "company_id is required")
    case Some(q) =>
      match fetch(q)
      case QueryFailed => Failure(500, "Failed to fetch jobs")
      case QueryThrew => Failure(500, "Internal server error")
      case QueryData(rows) =>
        var jobs := if rows.Some? then ProjectAll(rows.value) else [];
        Jobs(jobs, |jobs|)
  }

  /** Without `company_id` no query is made: the answer does not depend on the database. */
  lemma MissingCompanyNeverQueries(statusParam: Option<string>, f: JobsQuery -> QueryOutcome, g: JobsQuery -> QueryOutcome)
    ensures Get(statusParam, None, f) == Get(statusParam, None, g)
    ensures Get(statusParam, Some(""), f) == Get(statusParam, Some(""), g)
  {
  }

  /** Every job of a successful answer needs at least one worker or a non-zero count. */
  lemma JobsNeverRequireZeroWorkers(statusParam: Option<string>, companyParam: Option<string>, fetch: JobsQuery -> QueryOutcome)
    ensures var r := Get(statusParam, companyParam, fetch);
      r.Jobs? ==> forall i :: 0 <= i < |r.jobs| ==> r.jobs[i].required_workers != 0 && r.jobs[i].worker_count == r.jobs[i].required_workers
  {
  }

  /** `worker_count || 1` keeps a negative count: the default only replaces 0 and null. */
  lemma NegativeWorkerCountPassesThrough()
    ensures WorkersOrOne(Some(-2)) == -2
  {
  }
}
