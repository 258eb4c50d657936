/** The add/edit form: the values it starts from, its required-field rules
    and what submitting it does to the store. */
module JobForm {
  import opened Rows
  import opened JobStore
  import JobCard

  /** The date part of an ISO timestamp: everything before the first 'T',
      or all of `s` when it has no 'T'. */
  function DatePart(s: string): (r: string)
    ensures 'T' !in r
    ensures r <= s
    ensures r == s || s[|r|] == 'T'
    ensures 'T' !in s ==> r == s
  {
    if s == [] then []
    else if s[0] == 'T' then []
    else [s[0]] + DatePart(s[1..])
  }

  /** Cutting a date that has already been cut changes nothing. */
  lemma DatePartIdempotent(s: string)
    ensures DatePart(DatePart(s)) == DatePart(s)
  {
  }

  /** The notes the edit form starts with: absent and empty notes both
      become the empty text. */
  function NotesText(notes: Option<string>): (r: string)
    ensures r == "" <==> notes == None || notes == Some("")
    ensures r != "" ==> notes == Some(r)
  {
    match notes
    case Some(text) => text
    case None => ""
  }

  /** The edit form starts with non-empty notes exactly when the card shows
      a notes section. */
  lemma NotesTextMatchesCard(job: Row)
    ensures NotesText(job.notes) != "" <==> JobCard.ShowsNotes(job)
  {
  }

  /** The values the form starts from. A field that is `None` starts empty. */
  datatype Defaults = Defaults(
    company_name: Option<string>,
    job_title: Option<string>,
    status: Status,
    applied_date: string,
    notes: Option<string>)

  /** Editing starts from the job's own fields and its date part; creating
      starts from the 'Applied' state and the date part of `nowIso`. */
  function DefaultValues(job: Option<Row>, nowIso: string): (d: Defaults)
    ensures 'T' !in d.applied_date
    ensures job.Some? ==>
      d.company_name == Some(job.value.company_name) && d.job_title == Some(job.value.job_title)
      && d.status == job.value.status && d.applied_date <= job.value.applied_date
      && (d.applied_date == job.value.applied_date || job.value.applied_date[|d.applied_date|] == 'T')
      && d.notes == Some(NotesText(job.value.notes))
      && (d.notes.value == "" <==> !JobCard.ShowsNotes(job.value))
    ensures job.None? ==>
      d.company_name.None? && d.job_title.None? && d.notes.None?
      && d.status == Applied && d.applied_date <= nowIso
      && (d.applied_date == nowIso || nowIso[|d.applied_date|] == 'T')
  {
    match job
    case Some(j) =>
      NotesTextMatchesCard(j);
      Defaults(Some(j.company_name), Some(j.job_title), j.status, DatePart(j.applied_date), Some(NotesText(j.notes)))
    case None =>
      Defaults(None, None, Applied, DatePart(nowIso), None)
  }

  /** The form's fields. */
  datatype Field = CompanyName | JobTitle | StatusField | AppliedDate | Notes

  /** What the user has entered. The status select offers only the five
      states, so its value is one of them or nothing. */
  datatype FormInput = FormInput(
    company_name: string,
    job_title: string,
    status: Option<Status>,
    applied_date: string,
    notes: string)

  /** The message shown under a field whose required rule fails; the notes
      field has no rule and so no message. */
  function RequiredMessage(f: Field): (m: Option<string>)
    ensures m.Some? <==> IsRequired(f)
    ensures m.Some? ==> m.value != ""
  {
    match f
    case CompanyName => Some("Company name is required")
    case JobTitle => Some("Job title is required")
    case StatusField => Some("Status is required")
    case AppliedDate => Some("Applied date is required")
    case Notes => None
  }

  /** Two fields never share a message, so a message names its field. */
  lemma RequiredMessagesDistinct(f: Field, g: Field)
    requires RequiredMessage(f).Some? && RequiredMessage(f) == RequiredMessage(g)
    ensures f == g
  {
  }

  /** Every field but the notes is required. */
  predicate IsRequired(f: Field)
  {
    f != Notes
  }

  /** A field is blank when nothing has been entered in it. */
  predicate IsBlank(input: FormInput, f: Field)
  {
    match f
    case CompanyName => input.company_name == ""
    case JobTitle => input.job_title == ""
    case StatusField => input.status.None?
    case AppliedDate => input.applied_date == ""
    case Notes => input.notes == ""
  }

  /** The fields whose required rule fails, in the order of the form. */
  function MissingFields(input: FormInput): (r: seq<Field>)
    ensures forall f :: f in r <==> IsRequired(f) && IsBlank(input, f)
  {
    (if input.company_name == "" then [CompanyName] else [])
    + (if input.job_title == "" then [JobTitle] else [])
    + (if input.status.None? then [StatusField] else [])
    + (if input.applied_date == "" then [AppliedDate] else [])
  }

  /** The messages the form shows after a failed submission: one per blank
      required field, in the order of the form. */
  function Messages(input: FormInput): (r: seq<string>)
    ensures |r| == |MissingFields(input)|
    ensures forall k :: 0 <= k < |r| ==> r[k] != "" && RequiredMessage(MissingFields(input)[k]) == Some(r[k])
    ensures r == [] <==> forall f :: IsRequired(f) ==> !IsBlank(input, f)
  {
    var missing := MissingFields(input);
    assert missing != [] ==> missing[0] in missing;
    seq(|missing|, k requires 0 <= k < |missing| => RequiredMessage(missing[k]).value)
  }

  datatype Validation = Valid(fields: JobFields) | Invalid(missing: seq<Field>)

  /** The form submits only when every required field is filled in; the
      notes may be empty. */
  function Validate(input: FormInput): (v: Validation)
    ensures v.Valid? <==> forall f :: IsRequired(f) ==> !IsBlank(input, f)
    ensures v.Valid? ==>
      v.fields.company_name == input.company_name && v.fields.job_title == input.job_title
      && Some(v.fields.status) == input.status && v.fields.applied_date == input.applied_date
      && v.fields.notes == input.notes
    ensures v.Invalid? ==> v.missing != [] && forall f :: f in v.missing <==> IsRequired(f) && IsBlank(input, f)
    ensures v.Invalid? ==> v.missing == MissingFields(input)
  {
    var missing := MissingFields(input);
    if missing == [] then
      Valid(JobFields(input.company_name, input.job_title, input.status.value, input.applied_date, input.notes))
    else
      assert missing[0] in missing;
      Invalid(missing)
  }

  /** The store call a submission makes. */
  datatype StoreCall = NoCall | CallUpdate(id: string, changes: JobFields) | CallAdd(insert: JobInsert)

  /** `onSubmit`: with no user nothing happens and the form stays open;
      editing an existing job updates it by its identifier; otherwise the
      fields are added with the user's identifier attached. Either call is
      followed by closing the form. */
  function SubmitCall(user: Option<User>, job: Option<Row>, data: JobFields): (c: StoreCall)
    ensures user.None? <==> c == NoCall
    ensures user.Some? && job.Some? ==> c.CallUpdate? && c.id == job.value.id && c.changes == data
    ensures user.Some? && job.None? ==> c.CallAdd? && c.insert.user_id == user.value.id && c.insert.fields == data
  {
    if user.None? then NoCall
    else if job.Some? then CallUpdate(job.value.id, data)
    else CallAdd(JobInsert(user.value.id, data))
  }

  /** Performs a submission against the store. `reply` is the backend's
      answer to whichever call is made and `now` the clock reading used to
      stamp an update. `closes` says whether `onClose` is called. */
  method OnSubmit(store: Store, user: Option<User>, job: Option<Row>, data: JobFields, now: string, reply: Reply<Row>)
    returns (req: Option<Request>, closes: bool)
    modifies store`jobs
    ensures closes <==> user.Some?
    ensures req.None? <==> user.None?
    ensures user.None? ==> store.jobs == old(store.jobs)
    ensures user.Some? && job.Some? ==>
      req == Some(UpdateRow(job.value.id, data, now))
      && store.jobs == (if reply.Ok? then ReplaceById(old(store.jobs), job.value.id, reply.value) else old(store.jobs))
    ensures user.Some? && job.None? ==>
      req == Some(InsertRow(JobInsert(user.value.id, data)))
      && store.jobs == (if reply.Ok? then [reply.value] + old(store.jobs) else old(store.jobs))
    ensures store.loading == old(store.loading) && store.filter == old(store.filter) && store.sortBy == old(store.sortBy)
  {
    match SubmitCall(user, job, data) {
      case NoCall =>
        req, closes := None, false;
      case CallUpdate(id, changes) =>
        var r := store.UpdateJob(id, changes, now, reply);
        req, closes := Some(r), true;
      case CallAdd(insert) =>
        var r := store.AddJob(insert, reply);
        req, closes := Some(r), true;
    }
  }
}
