/** The client-side record cache: the list of the user's job applications,
    a loading flag and the filter and sort preferences, patched after each
    backend reply. The backend itself is not modelled: every operation takes
    the reply it receives as a parameter and returns the request it sends. */
module JobStore {
  import opened Lists
  import opened Rows

  /** What the backend answers: a value, or an error. */
  datatype Reply<T> = Ok(value: T) | Err

  /** The requests the store sends to the job-applications table. */
  datatype Request =
    | SelectForUser(userId: string, ascending: bool)
    | InsertRow(insert: JobInsert)
    | UpdateRow(id: string, changes: JobFields, updatedAt: string)
    | DeleteRow(id: string)

  /** The filter value that shows every row. */
  const AllFilter: string := "all"

  function IdIs(id: string): Row -> bool
  {
    (j: Row) => j.id == id
  }

  function IdIsNot(id: string): Row -> bool
  {
    (j: Row) => j.id != id
  }

  /** The number of cached entries with identifier `id`. */
  function CountId(jobs: seq<Row>, id: string): (n: nat)
    ensures n <= |jobs|
    ensures n == 0 <==> forall i :: 0 <= i < |jobs| ==> jobs[i].id != id
  {
    FilterEmpty(jobs, IdIs(id));
    |Filter(jobs, IdIs(id))|
  }

  /** The list after a successful fetch: the returned rows, or none when
      the backend returned no data. */
  function RowsOrEmpty(data: Option<seq<Row>>): seq<Row>
  {
    match data
    case Some(rows) => rows
    case None => []
  }

  /** Every entry with identifier `id` replaced by `row`, every other entry
      kept in its place. */
  function ReplaceById(jobs: seq<Row>, id: string, row: Row): (r: seq<Row>)
    ensures |r| == |jobs|
    ensures forall i :: 0 <= i < |jobs| ==> r[i] == (if jobs[i].id == id then row else jobs[i])
  {
    if jobs == [] then []
    else [if jobs[0].id == id then row else jobs[0]] + ReplaceById(jobs[1..], id, row)
  }

  /** Replacing a returned row that keeps its identifier a second time
      changes nothing. */
  lemma ReplaceByIdIdempotent(jobs: seq<Row>, id: string, row: Row)
    requires row.id == id
    ensures ReplaceById(ReplaceById(jobs, id, row), id, row) == ReplaceById(jobs, id, row)
  {
  }

  /** An update for an identifier that is not cached leaves the list as it is. */
  lemma ReplaceAbsentId(jobs: seq<Row>, id: string, row: Row)
    requires CountId(jobs, id) == 0
    ensures ReplaceById(jobs, id, row) == jobs
  {
  }

  /** After a successful update every entry with the identifier holds the
      returned row, and the number of such entries is unchanged. */
  lemma ReplaceByIdMatches(jobs: seq<Row>, id: string, row: Row)
    requires row.id == id
    ensures CountId(ReplaceById(jobs, id, row), id) == CountId(jobs, id)
    ensures forall j :: j in ReplaceById(jobs, id, row) && j.id == id ==> j == row
  {
    ReplaceCount(jobs, id, row);
  }

  lemma {:induction false} ReplaceCount(jobs: seq<Row>, id: string, row: Row)
    requires row.id == id
    ensures CountId(ReplaceById(jobs, id, row), id) == CountId(jobs, id)
  {
    if jobs != [] {
      ReplaceCount(jobs[1..], id, row);
      var r := ReplaceById(jobs, id, row);
      assert r[1..] == ReplaceById(jobs[1..], id, row);
    }
  }

  /** The entries whose identifier is not `id`, in their original order. */
  function RemoveById(jobs: seq<Row>, id: string): (r: seq<Row>)
    ensures forall j :: j in r <==> j in jobs && j.id != id
    ensures |r| == |jobs| - CountId(jobs, id)
  {
    var r := Filter(jobs, IdIsNot(id));
    assert forall j :: j in r <==> j in jobs && j.id != id by {
      forall j ensures j in r <==> j in jobs && j.id != id {
        FilterMembers(jobs, IdIsNot(id), j);
      }
    }
    FilterSplit(jobs, IdIsNot(id), IdIs(id));
    r
  }

  /** The entries left by a delete are exactly the old entries at the
      positions whose identifier differs, taken in increasing order. */
  lemma RemoveByIdPositions(jobs: seq<Row>, id: string) returns (idx: seq<nat>)
    ensures |idx| == |RemoveById(jobs, id)|
    ensures IncreasingIndices(idx, |jobs|)
    ensures forall k :: 0 <= k < |idx| ==> RemoveById(jobs, id)[k] == jobs[idx[k]]
    ensures forall i :: 0 <= i < |jobs| ==> (jobs[i].id != id <==> i in idx)
  {
    idx := Positions(jobs, IdIsNot(id));
    PositionsIncrease(jobs, IdIsNot(id));
    PositionsSelect(jobs, IdIsNot(id));
    forall i | 0 <= i < |jobs| ensures jobs[i].id != id <==> i in idx {
      PositionsMembers(jobs, IdIsNot(id), i);
    }
  }

  /** Deleting twice is deleting once; deleting an absent identifier
      changes nothing. */
  lemma RemoveByIdIdempotent(jobs: seq<Row>, id: string)
    ensures RemoveById(RemoveById(jobs, id), id) == RemoveById(jobs, id)
    ensures CountId(jobs, id) == 0 ==> RemoveById(jobs, id) == jobs
  {
    var r := RemoveById(jobs, id);
    assert forall i :: 0 <= i < |r| ==> IdIsNot(id)(r[i]) by {
      forall i | 0 <= i < |r| ensures IdIsNot(id)(r[i]) {
        assert r[i] in r;
      }
    }
    FilterKeepsAll(r, IdIsNot(id));
    if CountId(jobs, id) == 0 {
      FilterKeepsAll(jobs, IdIsNot(id));
    }
  }

  /** After a successful insert the returned row is cached once more than
      before; for a fresh identifier, exactly once. */
  lemma PrependCounts(jobs: seq<Row>, row: Row)
    ensures CountId([row] + jobs, row.id) == CountId(jobs, row.id) + 1
    ensures CountId(jobs, row.id) == 0 ==> CountId([row] + jobs, row.id) == 1
  {
    assert ([row] + jobs)[1..] == jobs;
  }

  /** The store. `filter` is a status name or "all"; `sortBy` is the order
      of the list by applied date. */
  class Store {
    var jobs: seq<Row>
    var loading: bool
    var filter: string
    var sortBy: SortOrder

    /** The initial state: nothing cached, not loading, no filter, newest first. */
    constructor ()
      ensures jobs == [] && !loading && filter == AllFilter && sortBy == Desc
    {
      jobs := [];
      loading := false;
      filter := AllFilter;
      sortBy := Desc;
    }

    method SetJobs(newJobs: seq<Row>)
      modifies this`jobs
      ensures jobs == newJobs
      ensures loading == old(loading) && filter == old(filter) && sortBy == old(sortBy)
    {
      jobs := newJobs;
    }

    method SetFilter(newFilter: string)
      modifies this`filter
      ensures filter == newFilter
      ensures jobs == old(jobs) && loading == old(loading) && sortBy == old(sortBy)
    {
      filter := newFilter;
    }

    method SetSortBy(order: SortOrder)
      modifies this`sortBy
      ensures sortBy == order
      ensures jobs == old(jobs) && loading == old(loading) && filter == old(filter)
    {
      sortBy := order;
    }

    /** Loads the user's rows, ordered by applied date ascending exactly when
        `sortBy` is ascending. On error the cache is kept. */
    method FetchJobs(userId: string, reply: Reply<Option<seq<Row>>>) returns (req: Request)
      modifies this`jobs, this`loading
      ensures req == SelectForUser(userId, sortBy == Asc)
      ensures req.ascending <==> sortBy == Asc
      ensures jobs == (if reply.Ok? then RowsOrEmpty(reply.value) else old(jobs))
      ensures !loading
      ensures filter == old(filter) && sortBy == old(sortBy)
    {
      loading := true;
      req := SelectForUser(userId, sortBy == Asc);
      if reply.Ok? {
        jobs := RowsOrEmpty(reply.value);
      }
      loading := false;
    }

    /** Inserts a row; on success the returned row is put in front. */
    method AddJob(insert: JobInsert, reply: Reply<Row>) returns (req: Request)
      modifies this`jobs
      ensures req == InsertRow(insert)
      ensures jobs == (if reply.Ok? then [reply.value] + old(jobs) else old(jobs))
      ensures loading == old(loading) && filter == old(filter) && sortBy == old(sortBy)
    {
      req := InsertRow(insert);
      if reply.Ok? {
        jobs := [reply.value] + jobs;
      }
    }

    /** Updates the row `id`, stamping `updated_at` with `now`; on success
        every cached entry with that identifier becomes the returned row. */
    method UpdateJob(id: string, changes: JobFields, now: string, reply: Reply<Row>) returns (req: Request)
      modifies this`jobs
      ensures req == UpdateRow(id, changes, now)
      ensures jobs == (if reply.Ok? then ReplaceById(old(jobs), id, reply.value) else old(jobs))
      ensures loading == old(loading) && filter == old(filter) && sortBy == old(sortBy)
    {
      req := UpdateRow(id, changes, now);
      if reply.Ok? {
        jobs := ReplaceById(jobs, id, reply.value);
      }
    }

    /** Deletes the row `id`; on success every cached entry with that
        identifier is dropped. */
    method DeleteJob(id: string, reply: Reply<()>) returns (req: Request)
      modifies this`jobs
      ensures req == DeleteRow(id)
      ensures jobs == (if reply.Ok? then RemoveById(old(jobs), id) else old(jobs))
      ensures loading == old(loading) && filter == old(filter) && sortBy == old(sortBy)
    {
      req := DeleteRow(id);
      if reply.Ok? {
        jobs := RemoveById(jobs, id);
      }
    }
  }
}
