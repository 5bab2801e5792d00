/** The pagination bar under the task table (src/components/tasks/Pagination.tsx):
    the "Showing" line, First / Previous / Next / Last, and a window of at most
    five page numbers around the current page. */
module PaginationBar {
  import opened Optional
  import opened Tasks
  import opened TasksPage

  function Max(a: int, b: int): int {
    if a >= b then a else b
  }

  /** How many numbered buttons there are: Math.min(5, totalPages). */
  function WindowSize(total: nat): (r: nat)
    ensures r <= 5 && r <= total
    ensures r == 5 || r == total
  {
    if total < 5 then total else 5
  }

  /** The number on the i-th button. */
  function WindowEntry(current: int, total: nat, i: int): int {
    if total <= 5 then i + 1
    else if current <= 3 then i + 1
    else if current >= total - 2 then total - 4 + i
    else current - 2 + i
  }

  /** The numbered buttons: consecutive page numbers, all real pages, as many
      as five of them, and the current page among them whenever it is a real
      page. Away from both ends the current page sits in the middle. */
  function PageNumbers(current: int, total: nat): (r: seq<int>)
    ensures |r| == WindowSize(total)
    ensures forall i :: 1 <= i < |r| ==> r[i] == r[i - 1] + 1
    ensures forall i :: 0 <= i < |r| ==> 1 <= r[i] <= total
    ensures 1 <= current <= total ==> current in r
    ensures total > 5 && 3 < current < total - 2 ==> r[2] == current
  {
    var r := seq(WindowSize(total), i => WindowEntry(current, total, i));
    assert 1 <= current <= total ==> current in r by {
      if 1 <= current <= total {
        if total <= 5 || current <= 3 {
          assert r[current - 1] == current;
        } else if current >= total - 2 {
          assert r[current - total + 4] == current;
        } else {
          assert r[2] == current;
        }
      }
    }
    r
  }

  /** The four window shapes, each in terms of its first number. */
  lemma WindowShapes(current: int, total: nat)
    ensures var r := PageNumbers(current, total);
      && (total <= 5 ==> r == seq(total, i => i + 1))
      && (total > 5 && current <= 3 ==> r == [1, 2, 3, 4, 5])
      && (total > 5 && current > 3 && current >= total - 2 ==>
            r == [total - 4, total - 3, total - 2, total - 1, total])
      && (total > 5 && 3 < current < total - 2 ==>
            r == [current - 2, current - 1, current, current + 1, current + 2])
  {
    var r := PageNumbers(current, total);
    if total <= 5 {
      assert forall i :: 0 <= i < total ==> r[i] == i + 1;
    }
  }

  /** A numbered button: its page and whether it is drawn as the active one. */
  datatype PageButton = PageButton(page: int, active: bool)

  /** What the bar draws when it draws anything. */
  datatype Bar = Bar(
    showingFrom: int,
    showingTo: int,
    totalTasks: nat,
    firstTarget: int,
    firstDisabled: bool,
    prevTarget: int,
    prevDisabled: bool,
    buttons: seq<PageButton>,
    nextTarget: int,
    nextDisabled: bool,
    lastTarget: int,
    lastDisabled: bool
  )

  /** The bar for the given props; nothing at all when there is at most one page. */
  function Render(currentPage: int, totalPages: nat, totalTasks: nat, startIndex: int, endIndex: int): (r: Option<Bar>)
    ensures r.None? <==> totalPages <= 1
    ensures r.Some? ==> r.value.showingFrom == startIndex + 1
    ensures r.Some? ==> r.value.showingTo <= totalTasks
    ensures r.Some? ==> r.value.showingTo == endIndex || r.value.showingTo == totalTasks
    ensures r.Some? ==> r.value.firstTarget == 1 && r.value.lastTarget == totalPages
    ensures r.Some? ==> (r.value.firstDisabled <==> currentPage == 1) && (r.value.prevDisabled <==> currentPage == 1)
    ensures r.Some? ==> (r.value.nextDisabled <==> currentPage == totalPages) && (r.value.lastDisabled <==> currentPage == totalPages)
    ensures r.Some? && 1 <= currentPage <= totalPages ==>
      1 <= r.value.prevTarget <= totalPages && 1 <= r.value.nextTarget <= totalPages
    ensures r.Some? ==> |r.value.buttons| == WindowSize(totalPages)
    ensures r.Some? ==> forall i :: 0 <= i < |r.value.buttons| ==>
      r.value.buttons[i].page == PageNumbers(currentPage, totalPages)[i] &&
      (r.value.buttons[i].active <==> r.value.buttons[i].page == currentPage)
  {
    if totalPages <= 1 then None
    else
      var numbers := PageNumbers(currentPage, totalPages);
      Some(Bar(
        startIndex + 1,
        Min(endIndex, totalTasks),
        totalTasks,
        1, currentPage == 1,
        Max(1, currentPage - 1), currentPage == 1,
        seq(|numbers|, i requires 0 <= i < |numbers| => PageButton(numbers[i], numbers[i] == currentPage)),
        Min(totalPages, currentPage + 1), currentPage == totalPages,
        totalPages, currentPage == totalPages))
  }

  /** On a real page, a disabled arrow is exactly one whose target is the page
      already shown, and an enabled one moves by exactly one page. */
  lemma DisabledIffNoMove(currentPage: int, totalPages: nat, totalTasks: nat, startIndex: int, endIndex: int)
    requires 1 <= currentPage <= totalPages
    requires totalPages > 1
    ensures var b := Render(currentPage, totalPages, totalTasks, startIndex, endIndex).value;
      && (b.prevDisabled <==> b.prevTarget == currentPage)
      && (b.nextDisabled <==> b.nextTarget == currentPage)
      && (!b.prevDisabled ==> b.prevTarget == currentPage - 1)
      && (!b.nextDisabled ==> b.nextTarget == currentPage + 1)
      && (b.firstDisabled <==> b.firstTarget == currentPage)
      && (b.lastDisabled <==> b.lastTarget == currentPage)
  {
  }

  /** Exactly one numbered button is active when the current page is a real page. */
  lemma OneActiveButton(currentPage: int, totalPages: nat, totalTasks: nat, startIndex: int, endIndex: int)
    requires 1 <= currentPage <= totalPages
    requires totalPages > 1
    ensures var b := Render(currentPage, totalPages, totalTasks, startIndex, endIndex).value;
      (exists i :: 0 <= i < |b.buttons| && b.buttons[i].active) &&
      forall i, j :: 0 <= i < j < |b.buttons| && b.buttons[i].active ==> !b.buttons[j].active
  {
    var b := Render(currentPage, totalPages, totalTasks, startIndex, endIndex).value;
    var numbers := PageNumbers(currentPage, totalPages);
    var k :| 0 <= k < |numbers| && numbers[k] == currentPage;
    assert b.buttons[k].active;
    forall i, j | 0 <= i < j < |b.buttons| ensures numbers[i] < numbers[j] {
      ConsecutiveIncreasing(numbers, i, j);
    }
  }

  lemma {:induction false} ConsecutiveIncreasing(s: seq<int>, i: nat, j: nat)
    requires forall k :: 1 <= k < |s| ==> s[k] == s[k - 1] + 1
    requires i <= j < |s|
    ensures s[j] == s[i] + (j - i)
    decreases j - i
  {
    if i < j {
      ConsecutiveIncreasing(s, i, j - 1);
    }
  }

  /** The bar as the task page draws it, from the derived view. */
  function RenderView(d: DerivedView, currentPage: int): Option<Bar> {
    Render(currentPage, d.totalPages, |d.sorted|, d.startIndex, d.endIndex)
  }

  /** On a real page the "Showing X to Y of N" line counts exactly the tasks in
      the table: Y - X + 1 of them, starting with the X-th sorted task. */
  lemma ShowingCountsPage(sorted: seq<Task>, page: int)
    requires 1 <= page <= TotalPages(|sorted|) && TotalPages(|sorted|) > 1
    ensures var b := Render(page, TotalPages(|sorted|), |sorted|, StartIndex(page), EndIndex(page)).value;
      && 1 <= b.showingFrom <= b.showingTo <= |sorted|
      && b.showingTo - b.showingFrom + 1 == |Page(sorted, page)|
      && Page(sorted, page) == sorted[b.showingFrom - 1..b.showingTo]
  {
    PageBounds(sorted, page);
  }

  /** The same, for the bar the task page draws from its derived view. */
  lemma ShowingCountsView(tasks: seq<Task>, v: ViewState)
    requires var d := Derive(Some(tasks), v); 1 <= v.currentPage <= d.totalPages && d.totalPages > 1
    ensures var d := Derive(Some(tasks), v);
      var b := RenderView(d, v.currentPage).value;
      && 1 <= b.showingFrom <= b.showingTo <= |d.sorted|
      && d.page == d.sorted[b.showingFrom - 1..b.showingTo]
  {
    var d := Derive(Some(tasks), v);
    var n := |d.sorted|;
    assert (v.currentPage - 1) * TasksPerPage <= (d.totalPages - 1) * TasksPerPage < n;
  }
}
