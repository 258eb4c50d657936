/** The card that shows one application: the badge colour for its status,
    whether the notes section is shown and whether an "Updated" date is. */
module JobCard {
  import opened Rows

  const BlueBadge: string := "bg-blue-100 text-blue-800 border-blue-200"
  const YellowBadge: string := "bg-yellow-100 text-yellow-800 border-yellow-200"
  const GreenBadge: string := "bg-green-100 text-green-800 border-green-200"
  const RedBadge: string := "bg-red-100 text-red-800 border-red-200"
  const PurpleBadge: string := "bg-purple-100 text-purple-800 border-purple-200"
  const GrayBadge: string := "bg-gray-100 text-gray-800 border-gray-200"

  /** `getStatusColor`: the badge classes for a status name; any name that
      is not one of the five states gets the gray badge. */
  function StatusColor(status: string): (c: string)
    ensures ParseStatus(status).None? ==> c == GrayBadge
  {
    if status == "Applied" then BlueBadge
    else if status == "Interview" then YellowBadge
    else if status == "Offer" then GreenBadge
    else if status == "Rejected" then RedBadge
    else if status == "Accepted" then PurpleBadge
    else GrayBadge
  }

  /** The colour each state is shown in. */
  function StateColor(st: Status): string
  {
    match st
    case Applied => BlueBadge
    case Interview => YellowBadge
    case Offer => GreenBadge
    case Rejected => RedBadge
    case Accepted => PurpleBadge
  }

  /** A row's badge is the colour of its state, never the gray default, and
      two different states never share a colour. */
  lemma StatusColorsDistinct(a: Status, b: Status)
    ensures StatusColor(StatusName(a)) == StateColor(a)
    ensures StatusColor(StatusName(a)) != GrayBadge
    ensures a != b ==> StatusColor(StatusName(a)) != StatusColor(StatusName(b))
  {
  }

  /** The notes section appears exactly when the notes are present and not
      the empty string (both are falsy in JavaScript). */
  predicate ShowsNotes(job: Row)
  {
    job.notes.Some? && job.notes.value != ""
  }

  /** The "Updated" line appears exactly when the row has been modified since
      it was created, i.e. its two timestamps differ. */
  predicate ShowsUpdated(job: Row)
  {
    job.updated_at != job.created_at
  }
}
