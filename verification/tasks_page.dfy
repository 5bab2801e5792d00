/** The derived view of the task page (src/hooks/useTasksPage.ts): a status
    filter and a case-insensitive search, a sort on one of four fields, and a
    fixed-size page of the result, together with the filter, sort and page
    state the page keeps. */
module TasksPage {
  import opened Optional
  import opened Strings
  import opened Tasks
  import opened TaskUtils

  /* ---------------------------------------------------------------- */
  /* Filtering                                                        */
  /* ---------------------------------------------------------------- */

  /** The empty filter admits every task; any other filter admits exactly the
      tasks whose stored status is that string. */
  predicate StatusMatches(t: Task, statusFilter: string) {
    statusFilter == "" || t.status == statusFilter
  }

  /** The empty query admits every task; any other query admits the tasks whose
      title, description, assignee name or status label contains it, ignoring case. */
  predicate SearchMatches(t: Task, query: string) {
    query == "" ||
    var q := Lower(query);
    || Includes(Lower(t.title), q)
    || Includes(Lower(t.description), q)
    || Includes(Lower(t.assignee.name), q)
    || Includes(Lower(StatusLabel(t.status)), q)
  }

  predicate Keeps(t: Task, statusFilter: string, query: string) {
    StatusMatches(t, statusFilter) && SearchMatches(t, query)
  }

  /** The filter step: the kept tasks, in their original order, each as often
      as it occurs in `tasks`. */
  function FilterTasks(tasks: seq<Task>, statusFilter: string, query: string): (r: seq<Task>)
    ensures IsSubsequence(r, tasks)
    ensures forall t :: multiset(r)[t] == if Keeps(t, statusFilter, query) then multiset(tasks)[t] else 0
    ensures forall i :: 0 <= i < |r| ==> Keeps(r[i], statusFilter, query)
  {
    if |tasks| == 0 then []
    else
      var rest := FilterTasks(tasks[1..], statusFilter, query);
      assert tasks == [tasks[0]] + tasks[1..];
      if Keeps(tasks[0], statusFilter, query) then
        var r := [tasks[0]] + rest;
        assert r[1..] == rest && tasks[1..] == tasks[1..];
        r
      else rest
  }

  /** A task is in the filtered list exactly when it is in `tasks` and kept. */
  lemma FilterMembership(tasks: seq<Task>, statusFilter: string, query: string, t: Task)
    ensures t in FilterTasks(tasks, statusFilter, query) <==> t in tasks && Keeps(t, statusFilter, query)
  {
    var r := FilterTasks(tasks, statusFilter, query);
    assert t in r <==> multiset(r)[t] > 0;
    assert t in tasks <==> multiset(tasks)[t] > 0;
  }

  /** With a non-empty status filter, every kept task has exactly that status. */
  lemma FilterByStatus(tasks: seq<Task>, statusFilter: string, query: string)
    requires statusFilter != ""
    ensures forall t :: t in FilterTasks(tasks, statusFilter, query) ==> t.status == statusFilter
  {
    var r := FilterTasks(tasks, statusFilter, query);
    forall t | t in r ensures t.status == statusFilter {
      var i :| 0 <= i < |r| && r[i] == t;
    }
  }

  /** With no filter and no query the filter step returns the whole collection. */
  lemma {:induction false} FilterKeepsAll(tasks: seq<Task>)
    ensures FilterTasks(tasks, "", "") == tasks
  {
    if |tasks| > 0 {
      FilterKeepsAll(tasks[1..]);
      assert tasks == [tasks[0]] + tasks[1..];
    }
  }

  /** Filtering an already filtered list with the same parameters changes nothing. */
  lemma {:induction false} FilterIdempotent(tasks: seq<Task>, statusFilter: string, query: string)
    ensures FilterTasks(FilterTasks(tasks, statusFilter, query), statusFilter, query)
         == FilterTasks(tasks, statusFilter, query)
  {
    if |tasks| > 0 {
      FilterIdempotent(tasks[1..], statusFilter, query);
      var rest := FilterTasks(tasks[1..], statusFilter, query);
      if Keeps(tasks[0], statusFilter, query) {
        var r := [tasks[0]] + rest;
        assert r[1..] == rest;
      }
    }
  }

  /* ---------------------------------------------------------------- */
  /* Sorting                                                          */
  /* ---------------------------------------------------------------- */

  /** `s` has the ISO shape YYYY-MM-DD with a month from 1 to 12 and a day from 1 to 31. */
  predicate IsIsoDate(s: string) {
    && |s| == 10 && s[4] == '-' && s[7] == '-'
    && (forall i :: 0 <= i < 10 && i != 4 && i != 7 ==> IsDigit(s[i]))
    && 1 <= DigitsValue(s[5..7]) <= 12
    && 1 <= DigitsValue(s[8..10]) <= 31
  }

  function Year(s: string): nat
    requires IsIsoDate(s)
  {
    DigitsValue(s[..4])
  }

  function Month(s: string): nat
    requires IsIsoDate(s)
  {
    DigitsValue(s[5..7])
  }

  function Day(s: string): nat
    requires IsIsoDate(s)
  {
    DigitsValue(s[8..10])
  }

  /** The due date as an integer key yyyymmdd, ordered as the calendar is; a
      string that is not an ISO date has no key (the source's NaN). */
  function DateKey(s: string): (r: Option<int>)
    ensures r.Some? <==> IsIsoDate(s)
  {
    if IsIsoDate(s) then
      Some(DigitsValue(s[..4]) * 10000 + DigitsValue(s[5..7]) * 100 + DigitsValue(s[8..10]))
    else None
  }

  /** Keys follow the calendar: one date's key is below another's exactly when
      it has an earlier year, or the same year and an earlier month, or the
      same year and month and an earlier day; equal keys mean equal dates. */
  lemma DateKeyOrder(a: string, b: string)
    requires IsIsoDate(a) && IsIsoDate(b)
    ensures DateKey(a).value < DateKey(b).value <==>
      || Year(a) < Year(b)
      || (Year(a) == Year(b) && Month(a) < Month(b))
      || (Year(a) == Year(b) && Month(a) == Month(b) && Day(a) < Day(b))
    ensures DateKey(a).value == DateKey(b).value <==>
      Year(a) == Year(b) && Month(a) == Month(b) && Day(a) == Day(b)
  {
  }

  /** The difference of two due dates; a comparison involving a date without a
      key is NaN in the source, which the sort treats as 0. */
  function DateDifference(a: string, b: string): int {
    match (DateKey(a), DateKey(b))
    case (Some(x), Some(y)) => x - y
    case _ => 0
  }

  /** The ascending comparison on the chosen field. Status compares the stored
      string, not its label. */
  function FieldCompare(a: Task, b: Task, field: SortField): int {
    match field
    case ByTitle => Compare(a.title, b.title)
    case ByStatus => Compare(a.status, b.status)
    case ByDueDate => DateDifference(a.dueDate, b.dueDate)
    case ByAssignee => Compare(a.assignee.name, b.assignee.name)
  }

  /** The sort comparator: the field comparison times +1 for ascending and -1 for descending. */
  function Comparator(a: Task, b: Task, config: SortConfig): int {
    FieldCompare(a, b, config.field) * (if config.direction.Asc? then 1 else -1)
  }

  /** Swapping the operands negates the comparator. */
  lemma ComparatorAntisymmetric(a: Task, b: Task, config: SortConfig)
    ensures Comparator(a, b, config) == -Comparator(b, a, config)
  {
    match config.field
    case ByTitle => CompareAntisymmetric(a.title, b.title);
    case ByStatus => CompareAntisymmetric(a.status, b.status);
    case ByDueDate =>
    case ByAssignee => CompareAntisymmetric(a.assignee.name, b.assignee.name);
  }

  /** The comparator is consistent for `t`: sorting by due date needs a parseable date. */
  predicate Comparable(t: Task, config: SortConfig) {
    config.field != ByDueDate || IsIsoDate(t.dueDate)
  }

  lemma FieldCompareTransitive(a: Task, b: Task, c: Task, field: SortField)
    requires field != ByDueDate || (IsIsoDate(a.dueDate) && IsIsoDate(b.dueDate) && IsIsoDate(c.dueDate))
    requires FieldCompare(a, b, field) <= 0 && FieldCompare(b, c, field) <= 0
    ensures FieldCompare(a, c, field) <= 0
  {
    match field
    case ByTitle => CompareTransitive(a.title, b.title, c.title);
    case ByStatus => CompareTransitive(a.status, b.status, c.status);
    case ByDueDate =>
    case ByAssignee => CompareTransitive(a.assignee.name, b.assignee.name, c.assignee.name);
  }

  /** "Not after" is transitive on comparable tasks, in both directions. */
  lemma ComparatorTransitive(a: Task, b: Task, c: Task, config: SortConfig)
    requires Comparable(a, config) && Comparable(b, config) && Comparable(c, config)
    requires Comparator(a, b, config) <= 0 && Comparator(b, c, config) <= 0
    ensures Comparator(a, c, config) <= 0
  {
    if config.direction.Asc? {
      FieldCompareTransitive(a, b, c, config.field);
    } else {
      ComparatorAntisymmetric(a, b, config);
      ComparatorAntisymmetric(b, c, config);
      ComparatorAntisymmetric(a, c, config);
      FieldCompareTransitive(c, b, a, config.field);
    }
  }

  /** No element is after a later one. */
  ghost predicate Sorted(s: seq<Task>, config: SortConfig) {
    forall i, j :: 0 <= i < j < |s| ==> Comparator(s[i], s[j], config) <= 0
  }

  /** A contiguous piece of a sorted list is sorted. */
  lemma SortedSlice(s: seq<Task>, lo: nat, hi: nat, config: SortConfig)
    requires lo <= hi <= |s|
    requires Sorted(s, config)
    ensures Sorted(s[lo..hi], config)
  {
    var p := s[lo..hi];
    forall i, j | 0 <= i < j < |p| ensures Comparator(p[i], p[j], config) <= 0 {
      assert p[i] == s[lo + i] && p[j] == s[lo + j];
    }
  }

  /** Places `t` after every element of `sorted` that is not after it: the step
      of a stable insertion sort. */
  function Insert(sorted: seq<Task>, t: Task, config: SortConfig): (r: seq<Task>)
    ensures multiset(r) == multiset(sorted) + multiset{t}
  {
    if |sorted| == 0 then [t]
    else if Comparator(t, sorted[0], config) < 0 then [t] + sorted
    else
      assert sorted == [sorted[0]] + sorted[1..];
      [sorted[0]] + Insert(sorted[1..], t, config)
  }

  /** The sort step. The source calls Array.prototype.sort, which is stable; for
      a consistent comparator its result is the stable insertion sort's. */
  function SortTasks(tasks: seq<Task>, config: SortConfig): (r: seq<Task>)
    ensures multiset(r) == multiset(tasks)
    ensures |r| == |tasks|
  {
    if |tasks| == 0 then []
    else
      assert tasks == tasks[..|tasks| - 1] + [tasks[|tasks| - 1]];
      var r := Insert(SortTasks(tasks[..|tasks| - 1], config), tasks[|tasks| - 1], config);
      assert |r| == |multiset(r)|;
      r
  }

  /** A task not after any element of a sorted list may be put in front of it. */
  lemma SortedCons(x: Task, rest: seq<Task>, config: SortConfig)
    requires Sorted(rest, config)
    requires forall y :: y in rest ==> Comparator(x, y, config) <= 0
    ensures Sorted([x] + rest, config)
  {
    var r := [x] + rest;
    forall i, j | 0 <= i < j < |r| ensures Comparator(r[i], r[j], config) <= 0 {
      if i == 0 {
        assert r[j] == rest[j - 1];
      } else {
        assert r[i] == rest[i - 1] && r[j] == rest[j - 1];
      }
    }
  }

  lemma {:induction false} InsertSorted(sorted: seq<Task>, t: Task, config: SortConfig)
    requires Sorted(sorted, config)
    requires Comparable(t, config) && forall y :: y in sorted ==> Comparable(y, config)
    ensures Sorted(Insert(sorted, t, config), config)
  {
    if |sorted| == 0 {
    } else if Comparator(t, sorted[0], config) < 0 {
      forall y | y in sorted ensures Comparator(t, y, config) <= 0 {
        var k :| 0 <= k < |sorted| && sorted[k] == y;
        if k > 0 {
          ComparatorTransitive(t, sorted[0], y, config);
        }
      }
      SortedCons(t, sorted, config);
    } else {
      var tail := sorted[1..];
      assert Sorted(tail, config) by {
        forall i, j | 0 <= i < j < |tail| ensures Comparator(tail[i], tail[j], config) <= 0 {
          assert tail[i] == sorted[i + 1] && tail[j] == sorted[j + 1];
        }
      }
      InsertSorted(tail, t, config);
      var rest := Insert(tail, t, config);
      ComparatorAntisymmetric(t, sorted[0], config);
      forall y | y in rest ensures Comparator(sorted[0], y, config) <= 0 {
        assert y in multiset(rest);
        if y != t {
          assert y in multiset(tail);
          var k :| 0 <= k < |tail| && tail[k] == y;
          assert sorted[k + 1] == y;
        }
      }
      SortedCons(sorted[0], rest, config);
    }
  }

  /** Once every task can be compared (all due dates parse when sorting by due
      date), the sort step puts the tasks in comparator order. */
  lemma {:induction false} SortTasksSorted(tasks: seq<Task>, config: SortConfig)
    requires forall i :: 0 <= i < |tasks| ==> Comparable(tasks[i], config)
    ensures Sorted(SortTasks(tasks, config), config)
  {
    if |tasks| > 0 {
      var init := tasks[..|tasks| - 1];
      SortTasksSorted(init, config);
      var s := SortTasks(init, config);
      forall y | y in s ensures Comparable(y, config) {
        assert y in multiset(init);
        var k :| 0 <= k < |init| && init[k] == y;
      }
      InsertSorted(s, tasks[|tasks| - 1], config);
    }
  }

  /* ---------------------------------------------------------------- */
  /* Pagination                                                       */
  /* ---------------------------------------------------------------- */

  const TasksPerPage: nat := 10

  /** Math.ceil(n / 10): the fewest pages that hold `n` tasks. */
  function TotalPages(n: nat): (r: nat)
    ensures r * TasksPerPage >= n
    ensures r > 0 ==> (r - 1) * TasksPerPage < n
  {
    (n + TasksPerPage - 1) / TasksPerPage
  }

  /** An index argument of Array.prototype.slice resolved against a length:
      negative counts from the end, and the result is clamped to [0, len]. */
  function ClampIndex(k: int, len: nat): (r: nat)
    ensures r <= len
    ensures 0 <= k <= len ==> r == k
    ensures k > len ==> r == len
  {
    if k < 0 then (if len + k < 0 then 0 else len + k)
    else if k > len then len
    else k
  }

  /** Array.prototype.slice. */
  function Slice(s: seq<Task>, start: int, end: int): (r: seq<Task>)
    ensures |r| <= |s|
  {
    var from := ClampIndex(start, |s|);
    var to := ClampIndex(end, |s|);
    if from < to then s[from..to] else []
  }

  function StartIndex(page: int): (r: int)
    ensures page >= 1 ==> r >= 0
  {
    (page - 1) * TasksPerPage
  }

  function EndIndex(page: int): int {
    StartIndex(page) + TasksPerPage
  }

  /** The tasks shown on page `page` (numbered from 1). */
  function Page(sorted: seq<Task>, page: int): seq<Task> {
    Slice(sorted, StartIndex(page), EndIndex(page))
  }

  function Min(a: int, b: int): int {
    if a <= b then a else b
  }

  /** Page p holds the tasks at positions (p-1)*10 up to but excluding
      min(p*10, n): at most ten, and exactly min(10, n-(p-1)*10) of them, at
      least one, when p is one of the TotalPages(n) pages. */
  lemma PageBounds(sorted: seq<Task>, page: int)
    requires page >= 1
    ensures var n := |sorted|;
      Page(sorted, page) == sorted[Min(StartIndex(page), n)..Min(page * TasksPerPage, n)]
    ensures |Page(sorted, page)| <= TasksPerPage
    ensures page <= TotalPages(|sorted|) ==>
      |Page(sorted, page)| == Min(TasksPerPage, |sorted| - StartIndex(page)) >= 1
  {
  }

  /** The first `count` pages, in order. */
  function Pages(sorted: seq<Task>, count: nat): (r: seq<seq<Task>>)
    ensures |r| == count
  {
    if count == 0 then [] else Pages(sorted, count - 1) + [Page(sorted, count)]
  }

  function Flatten(pages: seq<seq<Task>>): seq<Task> {
    if |pages| == 0 then [] else Flatten(pages[..|pages| - 1]) + pages[|pages| - 1]
  }

  lemma {:induction false} PagesPrefix(sorted: seq<Task>, count: nat)
    ensures Flatten(Pages(sorted, count)) == sorted[..Min(count * TasksPerPage, |sorted|)]
  {
    if count > 0 {
      PagesPrefix(sorted, count - 1);
      var ps := Pages(sorted, count);
      assert ps[..count - 1] == Pages(sorted, count - 1);
      PageBounds(sorted, count);
      var a := Min((count - 1) * TasksPerPage, |sorted|);
      var b := Min(count * TasksPerPage, |sorted|);
      assert sorted[..a] + sorted[a..b] == sorted[..b];
    }
  }

  /** Pages 1 to TotalPages(n), laid end to end, give back the sorted list:
      every task appears on exactly one page, in order. */
  lemma PagesCover(sorted: seq<Task>)
    ensures Flatten(Pages(sorted, TotalPages(|sorted|))) == sorted
  {
    PagesPrefix(sorted, TotalPages(|sorted|));
  }

  /** The task at position i is on page i/10 + 1, at position i%10 there. */
  lemma PageOfIndex(sorted: seq<Task>, i: nat)
    requires i < |sorted|
    ensures var p := i / TasksPerPage + 1;
      1 <= p <= TotalPages(|sorted|) && i % TasksPerPage < |Page(sorted, p)| &&
      Page(sorted, p)[i % TasksPerPage] == sorted[i]
  {
    var p := i / TasksPerPage + 1;
    PageBounds(sorted, p);
  }

  /* ---------------------------------------------------------------- */
  /* Filter, sort and page state                                      */
  /* ---------------------------------------------------------------- */

  datatype ViewState = ViewState(statusFilter: string, searchQuery: string, sort: SortConfig, currentPage: int)

  /** No filter, no query, due date ascending, page 1. */
  const InitialView := ViewState("", "", DefaultSort, 1)

  /** Removes the status filter and returns to page 1. */
  function ClearFilter(v: ViewState): (r: ViewState)
    ensures r.statusFilter == "" && r.currentPage == 1
    ensures r.searchQuery == v.searchQuery && r.sort == v.sort
  {
    v.(statusFilter := "", currentPage := 1)
  }

  /** Removes the search query and returns to page 1. */
  function ClearSearch(v: ViewState): (r: ViewState)
    ensures r.searchQuery == "" && r.currentPage == 1
    ensures r.statusFilter == v.statusFilter && r.sort == v.sort
  {
    v.(searchQuery := "", currentPage := 1)
  }

  /** Picking a status in the drop-down; the page number is left alone. */
  function SetStatusFilter(v: ViewState, statusFilter: string): (r: ViewState)
    ensures r.statusFilter == statusFilter
    ensures r.searchQuery == v.searchQuery && r.sort == v.sort && r.currentPage == v.currentPage
  {
    v.(statusFilter := statusFilter)
  }

  /** Typing in the search box; the page number is left alone. */
  function SetSearchQuery(v: ViewState, query: string): (r: ViewState)
    ensures r.searchQuery == query
    ensures r.statusFilter == v.statusFilter && r.sort == v.sort && r.currentPage == v.currentPage
  {
    v.(searchQuery := query)
  }

  /** Choosing a page in the pagination bar. */
  function SetCurrentPage(v: ViewState, page: int): (r: ViewState)
    ensures r.currentPage == page
    ensures r.statusFilter == v.statusFilter && r.searchQuery == v.searchQuery && r.sort == v.sort
  {
    v.(currentPage := page)
  }

  /** A click on the sort control for `field`: the active field sorted ascending
      turns descending, anything else becomes `field` ascending; back to page 1. */
  function HandleSort(v: ViewState, field: SortField): (r: ViewState)
    ensures r.sort.field == field
    ensures r.sort.direction.Desc? <==> v.sort.field == field && v.sort.direction.Asc?
    ensures r.currentPage == 1
    ensures r.statusFilter == v.statusFilter && r.searchQuery == v.searchQuery
  {
    var direction := if v.sort.field == field && v.sort.direction.Asc? then Desc else Asc;
    v.(sort := SortConfig(field, direction), currentPage := 1)
  }

  /** Two clicks in a row on the same field always sort in opposite directions. */
  lemma HandleSortAlternates(v: ViewState, field: SortField)
    ensures HandleSort(HandleSort(v, field), field).sort.field == field
    ensures HandleSort(HandleSort(v, field), field).sort.direction != HandleSort(v, field).sort.direction
  {
  }

  /** The effect that runs when the page count changes: a page past the last
      one goes back to 1 unless there are no pages at all. */
  function ResetOutOfRange(currentPage: int, totalPages: nat): (r: int)
    ensures currentPage > totalPages && totalPages > 0 ==> r == 1
    ensures !(currentPage > totalPages && totalPages > 0) ==> r == currentPage
    ensures 1 <= currentPage && totalPages > 0 ==> 1 <= r <= totalPages
  {
    if currentPage > totalPages && totalPages > 0 then 1 else currentPage
  }

  /* ---------------------------------------------------------------- */
  /* The derived view                                                 */
  /* ---------------------------------------------------------------- */

  datatype DerivedView = DerivedView(
    sorted: seq<Task>,
    page: seq<Task>,
    totalPages: nat,
    startIndex: int,
    endIndex: int
  )

  /** Filter, then sort, then cut out the current page. The tasks are absent
      (`undefined`) while the first fetch is pending; that reads as no tasks. */
  function Derive(tasks: Option<seq<Task>>, v: ViewState): (r: DerivedView)
    ensures multiset(r.sorted) == multiset(FilterTasks(tasks.GetOr([]), v.statusFilter, v.searchQuery))
    ensures r.totalPages == TotalPages(|r.sorted|)
    ensures r.startIndex == (v.currentPage - 1) * TasksPerPage
    ensures r.endIndex == r.startIndex + TasksPerPage
    ensures v.currentPage >= 1 ==> r.page == r.sorted[Min(r.startIndex, |r.sorted|)..Min(r.endIndex, |r.sorted|)]
  {
    var filtered := FilterTasks(tasks.GetOr([]), v.statusFilter, v.searchQuery);
    var sorted := SortTasks(filtered, v.sort);
    var r := DerivedView(sorted, Page(sorted, v.currentPage), TotalPages(|sorted|),
                         StartIndex(v.currentPage), EndIndex(v.currentPage));
    assert v.currentPage >= 1 ==> r.page == sorted[Min(r.startIndex, |sorted|)..Min(r.endIndex, |sorted|)] by {
      if v.currentPage >= 1 { PageBounds(sorted, v.currentPage); }
    }
    r
  }

  /** Every task on the shown page is a task of the collection that passes the
      filter and the search, the page holds at most ten tasks, and when every
      task can be compared it is in sort order. */
  lemma DeriveSound(tasks: seq<Task>, v: ViewState)
    requires v.currentPage >= 1
    ensures var d := Derive(Some(tasks), v);
      && |d.page| <= TasksPerPage
      && (forall t :: t in d.page ==> t in tasks && Keeps(t, v.statusFilter, v.searchQuery))
      && ((forall t :: t in tasks ==> Comparable(t, v.sort)) ==> Sorted(d.page, v.sort))
  {
    var d := Derive(Some(tasks), v);
    var filtered := FilterTasks(tasks, v.statusFilter, v.searchQuery);
    PageBounds(d.sorted, v.currentPage);
    var lo := Min(d.startIndex, |d.sorted|);
    var hi := Min(d.endIndex, |d.sorted|);
    forall t | t in d.page ensures t in tasks && Keeps(t, v.statusFilter, v.searchQuery) {
      assert t in d.sorted;
      assert t in multiset(filtered);
      FilterMembership(tasks, v.statusFilter, v.searchQuery, t);
    }
    if forall t :: t in tasks ==> Comparable(t, v.sort) {
      forall i | 0 <= i < |filtered| ensures Comparable(filtered[i], v.sort) {
        FilterMembership(tasks, v.statusFilter, v.searchQuery, filtered[i]);
      }
      SortTasksSorted(filtered, v.sort);
      SortedSlice(d.sorted, lo, hi, v.sort);
      assert d.page == d.sorted[lo..hi];
    }
  }

  /** After the out-of-range effect has run on a non-empty result, the current
      page is a real page and shows at least one task. */
  lemma SettledPageNonEmpty(tasks: seq<Task>, v: ViewState)
    requires v.currentPage >= 1
    requires |Derive(Some(tasks), v).sorted| > 0
    ensures var d := Derive(Some(tasks), v);
      var settled := v.(currentPage := ResetOutOfRange(v.currentPage, d.totalPages));
      |Derive(Some(tasks), settled).page| >= 1
  {
    var d := Derive(Some(tasks), v);
    var p := ResetOutOfRange(v.currentPage, d.totalPages);
    PageBounds(d.sorted, p);
  }
}

/** The dialog flags and the selected task of the task page
    (src/hooks/useTasksPage.ts). */
module PageModals {
  import opened Optional
  import opened Tasks

  datatype Modals = Modals(
    createOpen: bool,
    editOpen: bool,
    viewOpen: bool,
    deleteOpen: bool,
    selected: Option<Task>
  )

  const Closed := Modals(false, false, false, false, None)

  predicate NoneOpen(m: Modals) {
    !m.createOpen && !m.editOpen && !m.viewOpen && !m.deleteOpen
  }

  /** At most one dialog is raised. */
  predicate AtMostOneOpen(m: Modals) {
    (if m.createOpen then 1 else 0) + (if m.editOpen then 1 else 0)
      + (if m.viewOpen then 1 else 0) + (if m.deleteOpen then 1 else 0) <= 1
  }

  /** View, edit and delete clicks record the task and raise their own flag. */
  function ViewClick(m: Modals, t: Task): (r: Modals)
    ensures r.selected == Some(t) && r.viewOpen
    ensures r.createOpen == m.createOpen && r.editOpen == m.editOpen && r.deleteOpen == m.deleteOpen
  {
    m.(selected := Some(t), viewOpen := true)
  }

  function EditClick(m: Modals, t: Task): (r: Modals)
    ensures r.selected == Some(t) && r.editOpen
    ensures r.createOpen == m.createOpen && r.viewOpen == m.viewOpen && r.deleteOpen == m.deleteOpen
  {
    m.(selected := Some(t), editOpen := true)
  }

  function DeleteClick(m: Modals, t: Task): (r: Modals)
    ensures r.selected == Some(t) && r.deleteOpen
    ensures r.createOpen == m.createOpen && r.editOpen == m.editOpen && r.viewOpen == m.viewOpen
  {
    m.(selected := Some(t), deleteOpen := true)
  }

  /** Opening the create dialog leaves the selection alone. */
  function OpenCreate(m: Modals): (r: Modals)
    ensures r.createOpen && r.selected == m.selected
    ensures r.editOpen == m.editOpen && r.viewOpen == m.viewOpen && r.deleteOpen == m.deleteOpen
  {
    m.(createOpen := true)
  }

  /** Lowers every flag and forgets the selection. */
  function CloseModal(m: Modals): (r: Modals)
    ensures NoneOpen(r) && r.selected == None
  {
    Closed
  }

  /** A successful create closes the create dialog only. */
  function CreateSucceeded(m: Modals): (r: Modals)
    ensures !r.createOpen
    ensures r.editOpen == m.editOpen && r.viewOpen == m.viewOpen && r.deleteOpen == m.deleteOpen
    ensures r.selected == m.selected
  {
    m.(createOpen := false)
  }

  /** A successful edit closes the edit dialog and clears the selection. */
  function EditSucceeded(m: Modals): (r: Modals)
    ensures !r.editOpen && r.selected == None
    ensures r.createOpen == m.createOpen && r.viewOpen == m.viewOpen && r.deleteOpen == m.deleteOpen
  {
    m.(editOpen := false, selected := None)
  }

  /** A successful delete closes the delete dialog and clears the selection. */
  function DeleteSucceeded(m: Modals): (r: Modals)
    ensures !r.deleteOpen && r.selected == None
    ensures r.createOpen == m.createOpen && r.editOpen == m.editOpen && r.viewOpen == m.viewOpen
  {
    m.(deleteOpen := false, selected := None)
  }

  /** What saving the edit dialog submits: the merged task `{...selected, ...form}`,
      which is the form since the form is a whole task; nothing without a selection. */
  function EditSubmission(m: Modals, form: Task): (r: Option<Task>)
    ensures r.Some? <==> m.selected.Some?
    ensures r.Some? ==> r.value == form
  {
    if m.selected.Some? then Some(form) else None
  }

  /** What confirming the delete dialog submits: the selected task's id. */
  function DeleteSubmission(m: Modals): (r: Option<string>)
    ensures r.Some? <==> m.selected.Some?
    ensures r.Some? ==> r.value == m.selected.value.id
  {
    if m.selected.Some? then Some(m.selected.value.id) else None
  }

  /** The events the page reacts to. Clicks on the table and the create button
      only reach the page while no dialog covers it. */
  datatype Event =
    | View(t: Task) | Edit(t: Task) | Delete(t: Task) | Create
    | Close | CreateDone | EditDone | DeleteDone

  function Step(m: Modals, e: Event): Modals {
    match e
    case View(t) => if NoneOpen(m) then ViewClick(m, t) else m
    case Edit(t) => if NoneOpen(m) then EditClick(m, t) else m
    case Delete(t) => if NoneOpen(m) then DeleteClick(m, t) else m
    case Create => if NoneOpen(m) then OpenCreate(m) else m
    case Close => CloseModal(m)
    case CreateDone => CreateSucceeded(m)
    case EditDone => EditSucceeded(m)
    case DeleteDone => DeleteSucceeded(m)
  }

  function Run(m: Modals, events: seq<Event>): Modals
    decreases |events|
  {
    if |events| == 0 then m else Run(Step(m, events[0]), events[1..])
  }

  /** Starting closed, the page never shows two dialogs at once. */
  lemma {:induction false} RunKeepsOneOpen(m: Modals, events: seq<Event>)
    requires AtMostOneOpen(m)
    ensures AtMostOneOpen(Run(m, events))
    decreases |events|
  {
    if |events| > 0 {
      RunKeepsOneOpen(Step(m, events[0]), events[1..]);
    }
  }
}
