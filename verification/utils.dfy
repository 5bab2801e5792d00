/** Display decisions shared by the task components
    (src/components/tasks/utils.tsx): status labels, badge variants, the sort
    icon, and the option tables behind the status and sort drop-downs. */
module TaskUtils {
  import opened Optional
  import opened Tasks

  /** Badge colours; a status without one gets the default badge (`undefined`). */
  datatype BadgeVariant = Warning | Success

  function StatusBadgeVariant(status: string): (r: Option<BadgeVariant>)
    ensures r == Some(Warning) <==> status == Code(Pending)
    ensures r == Some(Success) <==> status == Code(Completed)
    ensures r == None <==> status == Code(InProgress) || Parse(status) == None
  {
    match Parse(status)
    case Some(InProgress) => None
    case Some(Pending) => Some(Warning)
    case Some(Completed) => Some(Success)
    case None => None
  }

  /** The human-readable name of a status. */
  function Label(s: Status): string {
    match s
    case InProgress => "In Progress"
    case Pending => "Pending"
    case Completed => "Completed"
  }

  /** The label shown for a stored status string: a status gets its name, any
      other string is shown as it is. */
  function StatusLabel(status: string): (r: string)
    ensures forall s: Status :: status == Code(s) ==> r == Label(s)
    ensures Parse(status) == None ==> r == status
  {
    match Parse(status)
    case Some(s) => Label(s)
    case None => status
  }

  /** Distinct statuses get distinct labels, so a label identifies its status. */
  lemma StatusLabelInjective(a: string, b: string)
    requires Parse(a).Some? && Parse(b).Some?
    ensures StatusLabel(a) == StatusLabel(b) <==> a == b
  {
  }

  /** The three arrow icons of a sortable column header. */
  datatype SortIcon = Unsorted | Up | Down

  function SortIconFor(field: SortField, config: SortConfig): (r: SortIcon)
    ensures r.Unsorted? <==> config.field != field
    ensures r.Up? <==> config.field == field && config.direction.Asc?
    ensures r.Down? <==> config.field == field && config.direction.Desc?
  {
    if config.field != field then Unsorted
    else if config.direction.Asc? then Up
    else Down
  }

  datatype StatusOption = StatusOption(value: string, text: string)

  /** The status filter drop-down: "no filter" first, then one entry per status. */
  const StatusOptions: seq<StatusOption> := [
    StatusOption("", "All Statuses"),
    StatusOption(Code(InProgress), "In Progress"),
    StatusOption(Code(Pending), "Pending"),
    StatusOption(Code(Completed), "Completed")
  ]

  /** The status drop-down leads with the empty "All Statuses" entry, lists
      every status exactly once after it, and labels each entry the way the
      rest of the screen labels that status. */
  lemma StatusOptionsAgree()
    ensures |StatusOptions| == 4 && StatusOptions[0] == StatusOption("", "All Statuses")
    ensures forall i :: 1 <= i < |StatusOptions| ==>
      Parse(StatusOptions[i].value).Some? && StatusOptions[i].text == StatusLabel(StatusOptions[i].value)
    ensures forall s: Status :: exists i :: 1 <= i < |StatusOptions| && StatusOptions[i].value == Code(s)
    ensures forall i, j :: 0 <= i < j < |StatusOptions| ==> StatusOptions[i].value != StatusOptions[j].value
  {
    assert StatusOptions[1].value == Code(InProgress);
    assert StatusOptions[2].value == Code(Pending);
    assert StatusOptions[3].value == Code(Completed);
  }

  datatype SortOption = SortOption(value: SortField, text: string)

  /** The sort drop-down. */
  const SortOptions: seq<SortOption> := [
    SortOption(ByTitle, "Title"),
    SortOption(ByStatus, "Status"),
    SortOption(ByDueDate, "Due Date"),
    SortOption(ByAssignee, "Assignee")
  ]

  /** Some entry of the sort drop-down is for `field`. */
  ghost predicate Offered(field: SortField) {
    exists i :: 0 <= i < |SortOptions| && SortOptions[i].value == field
  }

  /** Every sort field is offered exactly once. */
  lemma SortOptionsCover()
    ensures forall f: SortField :: Offered(f)
    ensures forall i, j :: 0 <= i < j < |SortOptions| ==> SortOptions[i].value != SortOptions[j].value
  {
    forall f: SortField ensures Offered(f) {
      match f
      case ByTitle => assert SortOptions[0].value == f;
      case ByStatus => assert SortOptions[1].value == f;
      case ByDueDate => assert SortOptions[2].value == f;
      case ByAssignee => assert SortOptions[3].value == f;
    }
  }

  /** The label the sort summary shows for a field; the table always has one. */
  function SortLabel(field: SortField): (r: string)
    ensures SortOption(field, r) in SortOptions
  {
    SortOptionsCover();
    assert Offered(field);
    match Find(SortOptions, (o: SortOption) => o.value == field)
    case Some(o) => o.text
    case None => assert false; ""
  }
}
