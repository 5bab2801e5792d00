/** The task table (src/components/tasks/TasksTable.tsx): the sortable column
    headers, one row per task of the current page, and the message shown in
    place of the rows when there are none. */
module TasksTableView {
  import opened Optional
  import opened Strings
  import opened Tasks
  import opened TaskUtils
  import opened TasksPage

  /* ---------------------------------------------------------------- */
  /* The empty state                                                  */
  /* ---------------------------------------------------------------- */

  const NoTasksFound := "No tasks found"

  /** The phrase naming the status filter. */
  function StatusPart(statusFilter: string): string {
    "with status " + Quoted(StatusLabel(statusFilter))
  }

  /** The phrase naming the search. */
  function SearchPart(searchQuery: string): string {
    "matching " + Quoted(searchQuery)
  }

  /** The message of the empty table: it names the status filter and the
      search, whichever are set. */
  function EmptyStateMessage(statusFilter: string, searchQuery: string): (r: string)
    ensures |r| >= |NoTasksFound| && r[..|NoTasksFound|] == NoTasksFound
  {
    if statusFilter != "" && searchQuery != "" then
      NoTasksFound + " " + StatusPart(statusFilter) + " and " + SearchPart(searchQuery)
    else if statusFilter != "" then
      NoTasksFound + " " + StatusPart(statusFilter)
    else if searchQuery != "" then
      NoTasksFound + " " + SearchPart(searchQuery)
    else
      NoTasksFound
  }

  /** A string ends with, and so includes, its last part. */
  lemma IncludesSuffix(a: string, b: string)
    ensures Includes(a + b, b)
  {
    assert OccursAt(a + b, b, |a|);
    IncludesIff(a + b, b);
  }

  /** Appending to a string keeps what it includes. */
  lemma IncludesExtend(a: string, b: string, c: string)
    requires Includes(a, b)
    ensures Includes(a + c, b)
  {
    IncludesIff(a, b);
    var i :| OccursAt(a, b, i);
    assert (a + c)[i..i + |b|] == a[i..i + |b|];
    assert OccursAt(a + c, b, i);
    IncludesIff(a + c, b);
  }

  /** The bare message appears exactly when neither a status filter nor a
      search is set. */
  lemma EmptyStateMessageBare(statusFilter: string, searchQuery: string)
    ensures EmptyStateMessage(statusFilter, searchQuery) == NoTasksFound <==>
      statusFilter == "" && searchQuery == ""
  {
  }

  /** Otherwise the message quotes the status label of the filter and the
      search, whichever are set. */
  lemma EmptyStateMessageMentions(statusFilter: string, searchQuery: string)
    ensures statusFilter != "" ==> Includes(EmptyStateMessage(statusFilter, searchQuery), StatusPart(statusFilter))
    ensures searchQuery != "" ==> Includes(EmptyStateMessage(statusFilter, searchQuery), SearchPart(searchQuery))
  {
    var head := NoTasksFound + " ";
    if statusFilter != "" && searchQuery != "" {
      IncludesSuffix(head, StatusPart(statusFilter));
      IncludesExtend(head + StatusPart(statusFilter), StatusPart(statusFilter), " and ");
      IncludesExtend(head + StatusPart(statusFilter) + " and ", StatusPart(statusFilter), SearchPart(searchQuery));
      IncludesSuffix(head + StatusPart(statusFilter) + " and ", SearchPart(searchQuery));
    } else if statusFilter != "" {
      IncludesSuffix(head, StatusPart(statusFilter));
    } else if searchQuery != "" {
      IncludesSuffix(head, SearchPart(searchQuery));
    }
  }

  /* ---------------------------------------------------------------- */
  /* Rows                                                             */
  /* ---------------------------------------------------------------- */

  /** What one row shows, and the task its View / Edit / Delete menu acts on.
      The due date is shown raw: its locale formatting is not modelled. */
  datatype Row = Row(
    key: string,
    title: string,
    description: string,
    badge: Option<BadgeVariant>,
    statusText: string,
    dueDate: string,
    avatar: string,
    initial: string,
    assigneeName: string,
    subject: Task
  )

  /** String.prototype.charAt(0): the first character, or "" for "". */
  function Initial(name: string): (r: string)
    ensures |r| <= 1 && |r| <= |name| && r == name[..|r|]
    ensures r == [] <==> name == []
  {
    if name == [] then [] else [name[0]]
  }

  function RowFor(t: Task): Row {
    Row(t.id, t.title, t.description, StatusBadgeVariant(t.status), StatusLabel(t.status),
        t.dueDate, t.assignee.avatar, Initial(t.assignee.name), t.assignee.name, t)
  }

  /** The table body: the empty-state row alone, or the task rows. */
  datatype Body = EmptyRow(message: string) | Rows(rows: seq<Row>)

  function RenderBody(tasks: seq<Task>, statusFilter: string, searchQuery: string): (r: Body)
    ensures r.EmptyRow? <==> |tasks| == 0
    ensures r.EmptyRow? ==> r.message == EmptyStateMessage(statusFilter, searchQuery)
    ensures r.Rows? ==> |r.rows| == |tasks|
    ensures r.Rows? ==> forall i :: 0 <= i < |tasks| ==>
      r.rows[i].subject == tasks[i] && r.rows[i].key == tasks[i].id &&
      r.rows[i].statusText == StatusLabel(tasks[i].status) && r.rows[i].badge == StatusBadgeVariant(tasks[i].status)
  {
    if |tasks| == 0 then EmptyRow(EmptyStateMessage(statusFilter, searchQuery))
    else Rows(seq(|tasks|, i requires 0 <= i < |tasks| => RowFor(tasks[i])))
  }

  /** The row keys are distinct exactly when the tasks' ids are. */
  lemma RowKeysDistinct(tasks: seq<Task>, statusFilter: string, searchQuery: string)
    requires |tasks| > 0
    ensures var r := RenderBody(tasks, statusFilter, searchQuery);
      UniqueIds(tasks) <==> forall i, j :: 0 <= i < j < |r.rows| ==> r.rows[i].key != r.rows[j].key
  {
  }

  /** On the task page, once the out-of-range effect has settled the current
      page, the table shows the empty-state row exactly when no task passes
      the status filter and the search. */
  lemma EmptyRowIffNothingMatches(tasks: seq<Task>, v: ViewState)
    requires v.currentPage >= 1
    requires var d := Derive(Some(tasks), v); v.currentPage <= d.totalPages || d.totalPages == 0
    ensures var d := Derive(Some(tasks), v);
      RenderBody(d.page, v.statusFilter, v.searchQuery).EmptyRow? <==>
      forall t :: t in tasks ==> !Keeps(t, v.statusFilter, v.searchQuery)
  {
    var d := Derive(Some(tasks), v);
    var filtered := FilterTasks(tasks, v.statusFilter, v.searchQuery);
    assert |d.sorted| == |multiset(d.sorted)| == |multiset(filtered)| == |filtered|;
    PageBounds(d.sorted, v.currentPage);
    if |filtered| == 0 {
      forall t | t in tasks ensures !Keeps(t, v.statusFilter, v.searchQuery) {
        FilterMembership(tasks, v.statusFilter, v.searchQuery, t);
      }
    } else {
      FilterMembership(tasks, v.statusFilter, v.searchQuery, filtered[0]);
    }
  }

  /* ---------------------------------------------------------------- */
  /* Headers                                                          */
  /* ---------------------------------------------------------------- */

  datatype Column = TitleColumn | DescriptionColumn | StatusColumn | DueDateColumn | AssigneeColumn | ActionsColumn

  /** The header row, left to right. */
  const Columns: seq<Column> := [TitleColumn, DescriptionColumn, StatusColumn, DueDateColumn, AssigneeColumn, ActionsColumn]

  function HeaderText(c: Column): string {
    match c
    case TitleColumn => "Title"
    case DescriptionColumn => "Description"
    case StatusColumn => "Status"
    case DueDateColumn => "Due Date"
    case AssigneeColumn => "Assignee"
    case ActionsColumn => ""
  }

  /** The field a header button passes to onSort; Description and the action
      column have no button. */
  function SortFieldOf(c: Column): (r: Option<SortField>)
    ensures r.None? <==> c.DescriptionColumn? || c.ActionsColumn?
  {
    match c
    case TitleColumn => Some(ByTitle)
    case StatusColumn => Some(ByStatus)
    case DueDateColumn => Some(ByDueDate)
    case AssigneeColumn => Some(ByAssignee)
    case _ => None
  }

  /** The icon inside a sortable header. */
  function HeaderIcon(c: Column, config: SortConfig): (r: Option<SortIcon>)
    ensures r.Some? <==> SortFieldOf(c).Some?
    ensures r.Some? ==> r.value == SortIconFor(SortFieldOf(c).value, config)
  {
    match SortFieldOf(c)
    case Some(f) => Some(SortIconFor(f, config))
    case None => None
  }

  /** Every sort field has exactly one header that sorts by it, and that
      header is titled with the text the sort drop-down uses for the field. */
  lemma HeaderDispatch(f: SortField)
    ensures exists i :: 0 <= i < |Columns| && SortFieldOf(Columns[i]) == Some(f)
    ensures forall i, j :: 0 <= i < j < |Columns| && SortFieldOf(Columns[i]) == Some(f) ==>
      SortFieldOf(Columns[j]) != Some(f)
    ensures forall c: Column :: SortFieldOf(c) == Some(f) ==> SortOption(f, HeaderText(c)) in SortOptions
  {
    match f
    case ByTitle => assert SortFieldOf(Columns[0]) == Some(f);
    case ByStatus => assert SortFieldOf(Columns[2]) == Some(f);
    case ByDueDate => assert SortFieldOf(Columns[3]) == Some(f);
    case ByAssignee => assert SortFieldOf(Columns[4]) == Some(f);
  }

  /** After a click on a sortable header, that header shows an arrow and every
      other header shows the unsorted icon or none. */
  lemma HeaderClickShowsArrow(v: ViewState, c: Column)
    requires SortFieldOf(c).Some?
    ensures var after := HandleSort(v, SortFieldOf(c).value);
      && !HeaderIcon(c, after.sort).value.Unsorted?
      && forall d: Column :: d != c && HeaderIcon(d, after.sort).Some? ==> HeaderIcon(d, after.sort).value.Unsorted?
  {
  }
}
