/** The one-line summary above the task table (src/components/tasks/FilterSummary.tsx):
    which filter, search and sort are in force, how many tasks pass, and the
    page being shown. */
module FilterSummaryView {
  import opened Optional
  import opened Strings
  import opened Tasks
  import opened TaskUtils
  import opened TasksPage

  /** The arrow after the sort label. */
  datatype Arrow = ArrowUp | ArrowDown

  datatype StatusBadge = StatusBadge(variant: Option<BadgeVariant>, text: string)
  datatype SortBadge = SortBadge(text: string, arrow: Arrow)
  datatype PageIndicator = PageIndicator(current: int, total: nat)

  /** The pieces of the summary, left to right; a separator flag says whether
      a bullet precedes the badge after it. */
  datatype Summary = Summary(
    statusBadge: Option<StatusBadge>,
    searchSeparator: bool,
    searchBadge: Option<string>,
    sortSeparator: bool,
    sortBadge: Option<SortBadge>,
    filteredTasks: nat,
    totalTasks: nat,
    pageIndicator: Option<PageIndicator>
  )

  /** Anything differs from the page's starting state: a status filter, a
      search, or a sort other than due date ascending. */
  predicate HasActiveFilters(statusFilter: string, searchQuery: string, sort: SortConfig) {
    statusFilter != "" || searchQuery != "" || !sort.field.ByDueDate? || !sort.direction.Asc?
  }

  /** A sort other than the starting one is in force. */
  lemma SortActiveIff(sort: SortConfig)
    ensures (!sort.field.ByDueDate? || !sort.direction.Asc?) <==> sort != DefaultSort
  {
  }

  function ArrowFor(direction: SortDirection): (r: Arrow)
    ensures r.ArrowUp? <==> direction.Asc?
  {
    if direction.Asc? then ArrowUp else ArrowDown
  }

  function Summarize(statusFilter: string, searchQuery: string, sort: SortConfig,
                     totalTasks: nat, filteredTasks: nat, currentPage: int, totalPages: nat): (r: Option<Summary>)
    ensures r.None? <==> statusFilter == "" && searchQuery == "" && sort == DefaultSort
    ensures r.Some? ==> (r.value.statusBadge.Some? <==> statusFilter != "")
    ensures r.Some? && statusFilter != "" ==>
      r.value.statusBadge.value == StatusBadge(StatusBadgeVariant(statusFilter), StatusLabel(statusFilter))
    ensures r.Some? ==> (r.value.searchBadge.Some? <==> searchQuery != "")
    ensures r.Some? && searchQuery != "" ==> r.value.searchBadge.value == Quoted(searchQuery)
    ensures r.Some? ==> (r.value.sortBadge.Some? <==> sort != DefaultSort)
    ensures r.Some? && sort != DefaultSort ==>
      SortOption(sort.field, r.value.sortBadge.value.text) in SortOptions &&
      (r.value.sortBadge.value.arrow.ArrowUp? <==> sort.direction.Asc?)
    ensures r.Some? ==> (r.value.searchSeparator <==> statusFilter != "" && searchQuery != "")
    ensures r.Some? ==> (r.value.sortSeparator <==> sort != DefaultSort && (statusFilter != "" || searchQuery != ""))
    ensures r.Some? ==> r.value.filteredTasks == filteredTasks && r.value.totalTasks == totalTasks
    ensures r.Some? ==> (r.value.pageIndicator.Some? <==> totalPages > 1)
    ensures r.Some? && totalPages > 1 ==> r.value.pageIndicator.value == PageIndicator(currentPage, totalPages)
  {
    SortActiveIff(sort);
    if !HasActiveFilters(statusFilter, searchQuery, sort) then None
    else
      var sortActive := !sort.field.ByDueDate? || !sort.direction.Asc?;
      Some(Summary(
        if statusFilter != "" then Some(StatusBadge(StatusBadgeVariant(statusFilter), StatusLabel(statusFilter))) else None,
        searchQuery != "" && statusFilter != "",
        if searchQuery != "" then Some(Quoted(searchQuery)) else None,
        sortActive && (statusFilter != "" || searchQuery != ""),
        if sortActive then Some(SortBadge(SortLabel(sort.field), ArrowFor(sort.direction))) else None,
        filteredTasks,
        totalTasks,
        if totalPages > 1 then Some(PageIndicator(currentPage, totalPages)) else None))
  }

  /** The summary is drawn exactly when it has a badge to show, and a bullet
      stands between every two neighbouring badges and nowhere else. */
  lemma SeparatorsBetweenBadges(statusFilter: string, searchQuery: string, sort: SortConfig,
                                totalTasks: nat, filteredTasks: nat, currentPage: int, totalPages: nat)
    ensures var r := Summarize(statusFilter, searchQuery, sort, totalTasks, filteredTasks, currentPage, totalPages);
      && (r.Some? ==> r.value.statusBadge.Some? || r.value.searchBadge.Some? || r.value.sortBadge.Some?)
      && (r.Some? ==> (r.value.searchSeparator <==> r.value.statusBadge.Some? && r.value.searchBadge.Some?))
      && (r.Some? ==> (r.value.sortSeparator <==>
            r.value.sortBadge.Some? && (r.value.statusBadge.Some? || r.value.searchBadge.Some?)))
  {
  }

  /** The sort badge names the field with the text the sort drop-down uses
      for it, so the two can never disagree. */
  lemma SortBadgeNamesField(sort: SortConfig, statusFilter: string, searchQuery: string,
                            totalTasks: nat, filteredTasks: nat, currentPage: int, totalPages: nat, i: int)
    requires sort != DefaultSort
    requires 0 <= i < |SortOptions| && SortOptions[i].value == sort.field
    ensures var r := Summarize(statusFilter, searchQuery, sort, totalTasks, filteredTasks, currentPage, totalPages);
      r.Some? && r.value.sortBadge.Some? && r.value.sortBadge.value.text == SortOptions[i].text
  {
    var r := Summarize(statusFilter, searchQuery, sort, totalTasks, filteredTasks, currentPage, totalPages);
    SortOptionsCover();
    var j :| 0 <= j < |SortOptions| && SortOptions[j] == SortOption(sort.field, r.value.sortBadge.value.text);
    assert i == j;
  }

  /** The summary as the task page draws it: the count of all tasks, and the
      count that pass the filter and search. */
  function SummarizeView(tasks: Option<seq<Task>>, v: ViewState): Option<Summary> {
    var d := Derive(tasks, v);
    Summarize(v.statusFilter, v.searchQuery, v.sort, |tasks.GetOr([])|, |d.sorted|, v.currentPage, d.totalPages)
  }

  /** The "(X of N tasks)" count never shows more passing tasks than there are,
      and shows them all when neither a filter nor a search is set. */
  lemma CountsConsistent(tasks: seq<Task>, v: ViewState)
    requires SummarizeView(Some(tasks), v).Some?
    ensures var s := SummarizeView(Some(tasks), v).value;
      && s.filteredTasks <= s.totalTasks
      && (v.statusFilter == "" && v.searchQuery == "" ==> s.filteredTasks == s.totalTasks)
  {
    var d := Derive(Some(tasks), v);
    var filtered := FilterTasks(tasks, v.statusFilter, v.searchQuery);
    assert |d.sorted| == |multiset(d.sorted)| == |multiset(filtered)| == |filtered|;
    if v.statusFilter == "" && v.searchQuery == "" {
      FilterKeepsAll(tasks);
    }
  }
}
