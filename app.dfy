/** The top-level screen: which cached rows are listed under the current
    filter, the text shown when none are, and the component state that
    opens and closes the job form, toggles login/sign-up and gates deletes
    behind a confirmation. */
module App {
  import opened Lists
  import opened Rows
  import opened JobStore
  import JobFilters
  import JobForm

  /** The list's test for one row: every row under "all", otherwise the rows
      whose status name is the filter. */
  function MatchesFilter(filter: string): Row -> bool
  {
    (j: Row) => filter == AllFilter || StatusName(j.status) == filter
  }

  /** `filteredJobs`: the cached rows the filter lets through, in cache order. */
  function FilteredJobs(jobs: seq<Row>, filter: string): (r: seq<Row>)
    ensures |r| <= |jobs|
    ensures forall j :: j in r <==> j in jobs && (filter == AllFilter || StatusName(j.status) == filter)
  {
    assert forall j :: j in Filter(jobs, MatchesFilter(filter)) <==> j in jobs && MatchesFilter(filter)(j) by {
      forall j ensures j in Filter(jobs, MatchesFilter(filter)) <==> j in jobs && MatchesFilter(filter)(j) {
        FilterMembers(jobs, MatchesFilter(filter), j);
      }
    }
    Filter(jobs, MatchesFilter(filter))
  }

  /** Under "all" the list is the cache itself, order included. */
  lemma FilterAllIsIdentity(jobs: seq<Row>)
    ensures FilteredJobs(jobs, AllFilter) == jobs
  {
    FilterKeepsAll(jobs, MatchesFilter(AllFilter));
  }

  /** Under a status name the list is the rows with that status, and there
      are as many of them as the status tally says. */
  lemma FilterByStatus(jobs: seq<Row>, st: Status)
    ensures FilteredJobs(jobs, StatusName(st)) == Filter(jobs, HasStatus(st))
    ensures |FilteredJobs(jobs, StatusName(st))| == CountStatus(jobs, st)
  {
    forall i | 0 <= i < |jobs|
      ensures MatchesFilter(StatusName(st))(jobs[i]) == HasStatus(st)(jobs[i])
    {
      StatusNameRoundTrip(jobs[i].status);
      StatusNameRoundTrip(st);
    }
    FilterAgrees(jobs, MatchesFilter(StatusName(st)), HasStatus(st));
  }

  /** A filter that is neither "all" nor a status name lets nothing through. */
  lemma FilterUnknownIsEmpty(jobs: seq<Row>, filter: string)
    requires filter != AllFilter && ParseStatus(filter).None?
    ensures FilteredJobs(jobs, filter) == []
  {
    FilterKeepsNone(jobs, MatchesFilter(filter));
  }

  /** The listed rows are exactly the cached rows at the positions the filter
      lets through, in increasing order of position. */
  lemma FilteredPositions(jobs: seq<Row>, filter: string) returns (idx: seq<nat>)
    ensures |idx| == |FilteredJobs(jobs, filter)|
    ensures IncreasingIndices(idx, |jobs|)
    ensures forall k :: 0 <= k < |idx| ==> FilteredJobs(jobs, filter)[k] == jobs[idx[k]]
    ensures forall i :: 0 <= i < |jobs| ==>
      ((filter == AllFilter || StatusName(jobs[i].status) == filter) <==> i in idx)
  {
    idx := Positions(jobs, MatchesFilter(filter));
    PositionsIncrease(jobs, MatchesFilter(filter));
    PositionsSelect(jobs, MatchesFilter(filter));
    forall i | 0 <= i < |jobs|
      ensures (filter == AllFilter || StatusName(jobs[i].status) == filter) <==> i in idx
    {
      PositionsMembers(jobs, MatchesFilter(filter), i);
    }
  }

  /** The tally on each filter button is the number of cards that button lists. */
  lemma OptionCountIsListLength(jobs: seq<Row>, i: nat)
    requires i < 6
    ensures |FilteredJobs(jobs, JobFilters.FilterOptions(jobs)[i].value)| == JobFilters.FilterOptions(jobs)[i].count
  {
    if i == 0 {
      FilterAllIsIdentity(jobs);
    } else {
      FilterByStatus(jobs, AllStatuses[i - 1]);
    }
  }

  /** ASCII case folding of one character. */
  function LowerChar(c: char): (d: char)
    ensures !('A' <= d <= 'Z')
    ensures !('A' <= c <= 'Z') ==> d == c
  {
    if 'A' <= c <= 'Z' then (c as int + 32) as char else c
  }

  /** `toLowerCase`, for the ASCII letters the status names are made of. */
  function Lower(s: string): (r: string)
    ensures |r| == |s|
    ensures forall i :: 0 <= i < |s| ==> r[i] == LowerChar(s[i])
  {
    if s == [] then [] else [LowerChar(s[0])] + Lower(s[1..])
  }

  /** The heading shown when the filtered list is empty. */
  function EmptyHeading(filter: string): (r: string)
    ensures filter == AllFilter ==> r == "No applications yet"
    ensures filter != AllFilter ==> |r| == |filter| + 16
    ensures filter != AllFilter ==> (r[..3] == "No " && r[|r| - 13..] == " applications" && r[3..|r| - 13] == Lower(filter))
  {
    if filter == AllFilter then "No applications yet"
    else
      var r := "No " + Lower(filter) + " applications";
      assert r[3..|r| - 13] == Lower(filter);
      r
  }

  /** The state names in lower case, as the headings show them. */
  function LowerStatusName(st: Status): string
  {
    match st
    case Applied => "applied"
    case Interview => "interview"
    case Offer => "offer"
    case Rejected => "rejected"
    case Accepted => "accepted"
  }

  /** Folding a stored status name gives its lower-case spelling. */
  lemma LowerOfStatusName(st: Status)
    ensures Lower(StatusName(st)) == LowerStatusName(st)
  {
    var name := StatusName(st);
    assert |Lower(name)| == |LowerStatusName(st)|;
    forall i | 0 <= i < |name| ensures Lower(name)[i] == LowerStatusName(st)[i] {
    }
  }

  /** Under a status filter the heading names that status in lower case. */
  lemma EmptyHeadingForStatus(st: Status)
    ensures EmptyHeading(StatusName(st)) == "No " + LowerStatusName(st) + " applications"
  {
    LowerOfStatusName(st);
  }

  /** The line under the heading: an invitation to add the first application
      under "all", otherwise a sentence naming the filter in lower case. */
  function EmptyDescription(filter: string): (r: string)
    ensures filter == AllFilter ==> r == "Start tracking your job applications by adding your first one."
    ensures filter != AllFilter ==> |r| == |filter| + 45
    ensures filter != AllFilter ==>
      (r[..37] == "You don't have any applications with " && r[|r| - 8..] == " status."
       && r[37..|r| - 8] == Lower(filter))
  {
    if filter == AllFilter then "Start tracking your job applications by adding your first one."
    else
      var r := "You don't have any applications with " + Lower(filter) + " status.";
      assert r[37..|r| - 8] == Lower(filter);
      r
  }

  /** Under a status filter the description names that status in lower case. */
  lemma EmptyDescriptionForStatus(st: Status)
    ensures EmptyDescription(StatusName(st)) == "You don't have any applications with " + LowerStatusName(st) + " status."
  {
    LowerOfStatusName(st);
  }

  /** The empty state, with its "Add Your First Application" button under
      "all", is shown exactly when the filtered list is empty; under "all"
      that is exactly when the cache is empty. */
  predicate ShowsEmptyState(jobs: seq<Row>, filter: string)
  {
    |FilteredJobs(jobs, filter)| == 0
  }

  lemma EmptyStateUnderAll(jobs: seq<Row>)
    ensures ShowsEmptyState(jobs, AllFilter) <==> jobs == []
  {
    FilterAllIsIdentity(jobs);
  }

  /** A filter button shows its tally exactly when pressing it would list
      at least one application rather than the empty state. */
  lemma CountShownIffListNonEmpty(jobs: seq<Row>, i: nat)
    requires i < 6
    ensures JobFilters.ShowsCount(JobFilters.FilterOptions(jobs)[i])
            <==> !ShowsEmptyState(jobs, JobFilters.FilterOptions(jobs)[i].value)
  {
    OptionCountIsListLength(jobs, i);
  }

  /** Whether the sign-in screen logs in or signs up. */
  datatype AuthMode = Login | Signup

  /** The auth form's mode switch. */
  function Toggled(m: AuthMode): (r: AuthMode)
    ensures r != m
  {
    if m == Login then Signup else Login
  }

  /** Switching twice returns to the starting mode. */
  lemma ToggleTwice(m: AuthMode)
    ensures Toggled(Toggled(m)) == m
  {
  }

  /** The component state of the screen. */
  class AppState {
    var authMode: AuthMode
    var showJobForm: bool
    var editingJob: Option<Row>

    /** A job is being edited only while the form is open. */
    ghost predicate Valid()
      reads this
    {
      editingJob.Some? ==> showJobForm
    }

    /** The initial state: login mode, form closed, nothing being edited. */
    constructor ()
      ensures Valid()
      ensures authMode == Login && !showJobForm && editingJob == None
    {
      authMode := Login;
      showJobForm := false;
      editingJob := None;
    }

    /** Opens the form on `job`. */
    method HandleEditJob(job: Row)
      requires Valid()
      modifies this`editingJob, this`showJobForm
      ensures Valid()
      ensures editingJob == Some(job) && showJobForm
      ensures authMode == old(authMode)
    {
      editingJob := Some(job);
      showJobForm := true;
    }

    /** Closes the form and forgets the job being edited. */
    method HandleCloseForm()
      requires Valid()
      modifies this`editingJob, this`showJobForm
      ensures Valid()
      ensures !showJobForm && editingJob == None
      ensures authMode == old(authMode)
    {
      showJobForm := false;
      editingJob := None;
    }

    /** The "Add Application" buttons: only open the form. */
    method OpenJobForm()
      requires Valid()
      modifies this`showJobForm
      ensures Valid()
      ensures showJobForm
      ensures editingJob == old(editingJob) && authMode == old(authMode)
    {
      showJobForm := true;
    }

    /** The sign-in screen's "switch mode" link. */
    method ToggleAuthMode()
      requires Valid()
      modifies this`authMode
      ensures Valid()
      ensures authMode == Toggled(old(authMode))
      ensures showJobForm == old(showJobForm) && editingJob == old(editingJob)
    {
      authMode := Toggled(authMode);
    }

    /** A card's delete button: the store deletes `id` only when the user
        confirms the prompt. */
    method HandleDeleteJob(store: Store, id: string, confirmed: bool, reply: Reply<()>) returns (req: Option<Request>)
      modifies store`jobs
      ensures req == (if confirmed then Some(DeleteRow(id)) else None)
      ensures store.jobs == (if confirmed && reply.Ok? then RemoveById(old(store.jobs), id) else old(store.jobs))
      ensures store.loading == old(store.loading) && store.filter == old(store.filter) && store.sortBy == old(store.sortBy)
    {
      req := None;
      if confirmed {
        var r := store.DeleteJob(id, reply);
        req := Some(r);
      }
    }

    /** Submitting the open form, which was given `editingJob` and
        `HandleCloseForm` as its job and its close callback. */
    method SubmitJobForm(store: Store, user: Option<User>, data: JobFields, now: string, reply: Reply<Row>)
      returns (req: Option<Request>)
      requires Valid()
      modifies this`editingJob, this`showJobForm, store`jobs
      ensures Valid()
      ensures user.None? ==> req.None? && store.jobs == old(store.jobs)
      ensures user.None? ==> showJobForm == old(showJobForm) && editingJob == old(editingJob)
      ensures user.Some? ==> !showJobForm && editingJob == None
      ensures user.Some? && old(editingJob).Some? ==>
        req == Some(UpdateRow(old(editingJob).value.id, data, now))
        && store.jobs == (if reply.Ok? then ReplaceById(old(store.jobs), old(editingJob).value.id, reply.value) else old(store.jobs))
      ensures user.Some? && old(editingJob).None? ==>
        req == Some(InsertRow(JobInsert(user.value.id, data)))
        && store.jobs == (if reply.Ok? then [reply.value] + old(store.jobs) else old(store.jobs))
      ensures authMode == old(authMode)
    {
      var closes;
      req, closes := JobForm.OnSubmit(store, user, editingJob, data, now, reply);
      if closes {
        HandleCloseForm();
      }
    }
  }
}
