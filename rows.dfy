/** The record types of the job-applications table and the tallies that the
    dashboard and the filter bar compute over a list of rows. */
module Rows {
  import opened Lists

  datatype Option<T> = None | Some(value: T)

  /** The closed set of application states a row can be in. */
  datatype Status = Applied | Interview | Offer | Rejected | Accepted

  /** The five states in the order the user interface lists them. */
  const AllStatuses: seq<Status> := [Applied, Interview, Offer, Rejected, Accepted]

  /** The text the backend stores and the interface shows for a state. */
  function StatusName(s: Status): string
  {
    match s
    case Applied => "Applied"
    case Interview => "Interview"
    case Offer => "Offer"
    case Rejected => "Rejected"
    case Accepted => "Accepted"
  }

  /** The state a stored name denotes, if any. */
  function ParseStatus(name: string): (r: Option<Status>)
    ensures r.Some? ==> StatusName(r.value) == name
    ensures r.None? ==> forall s: Status :: StatusName(s) != name
  {
    if name == "Applied" then Some(Applied)
    else if name == "Interview" then Some(Interview)
    else if name == "Offer" then Some(Offer)
    else if name == "Rejected" then Some(Rejected)
    else if name == "Accepted" then Some(Accepted)
    else None
  }

  /** Names and states are in one-to-one correspondence. */
  lemma StatusNameRoundTrip(s: Status)
    ensures ParseStatus(StatusName(s)) == Some(s)
  {
  }

  /** One stored job application. `notes` is nullable. */
  datatype Row = Row(
    id: string,
    user_id: string,
    company_name: string,
    job_title: string,
    status: Status,
    applied_date: string,
    notes: Option<string>,
    created_at: string,
    updated_at: string)

  /** The five fields a user edits in the job form. */
  datatype JobFields = JobFields(
    company_name: string,
    job_title: string,
    status: Status,
    applied_date: string,
    notes: string)

  /** The row sent to the backend on insert: the form's fields plus the owner. */
  datatype JobInsert = JobInsert(user_id: string, fields: JobFields)

  /** The authenticated user; only the identifier is used by the core. */
  datatype User = User(id: string)

  /** The order in which the list is requested by applied date. */
  datatype SortOrder = Asc | Desc

  function SortName(o: SortOrder): string
  {
    match o
    case Asc => "asc"
    case Desc => "desc"
  }

  /** The test "the row's status is `st`", as a value that `Filter` can take. */
  function HasStatus(st: Status): Row -> bool
  {
    (j: Row) => j.status == st
  }

  /** The number of rows with status `st`. */
  function CountStatus(jobs: seq<Row>, st: Status): (n: nat)
    ensures n <= |jobs|
  {
    |Filter(jobs, HasStatus(st))|
  }

  /** Taking one more row at the front adds one to exactly its own status. */
  lemma CountStatusCons(j: Row, rest: seq<Row>, st: Status)
    ensures CountStatus([j] + rest, st) == CountStatus(rest, st) + (if j.status == st then 1 else 0)
  {
    assert ([j] + rest)[1..] == rest;
  }

  /** Every row has exactly one of the five states, so the five tallies
      partition the list. */
  lemma {:induction false} CountsPartition(jobs: seq<Row>)
    ensures CountStatus(jobs, Applied) + CountStatus(jobs, Interview) + CountStatus(jobs, Offer)
            + CountStatus(jobs, Rejected) + CountStatus(jobs, Accepted) == |jobs|
  {
    if jobs != [] {
      CountsPartition(jobs[1..]);
      assert jobs == [jobs[0]] + jobs[1..];
      CountStatusCons(jobs[0], jobs[1..], Applied);
      CountStatusCons(jobs[0], jobs[1..], Interview);
      CountStatusCons(jobs[0], jobs[1..], Offer);
      CountStatusCons(jobs[0], jobs[1..], Rejected);
      CountStatusCons(jobs[0], jobs[1..], Accepted);
    }
  }
}
