/** Optional values, standing for the source's `undefined` / `null`, and
    Array.prototype.find, which produces one. */
module Optional {
  datatype Option<+T> = None | Some(value: T) {
    function GetOr(default: T): T {
      match this
      case Some(v) => v
      case None => default
    }
  }

  /** Index `i` holds the first element of `xs` that satisfies `p`. */
  ghost predicate FirstAt<T>(xs: seq<T>, p: T -> bool, i: int) {
    0 <= i < |xs| && p(xs[i]) && forall j :: 0 <= j < i ==> !p(xs[j])
  }

  /** Array.prototype.find: the first element satisfying `p`, if there is one. */
  function Find<T>(xs: seq<T>, p: T -> bool): (r: Option<T>)
    ensures r.None? <==> forall i :: 0 <= i < |xs| ==> !p(xs[i])
    ensures r.Some? ==> exists i :: FirstAt(xs, p, i) && xs[i] == r.value
  {
    if |xs| == 0 then None
    else if p(xs[0]) then
      assert FirstAt(xs, p, 0);
      Some(xs[0])
    else
      var r := Find(xs[1..], p);
      assert r.Some? ==> exists i :: FirstAt(xs, p, i) && xs[i] == r.value by {
        if r.Some? {
          var i :| FirstAt(xs[1..], p, i) && xs[1..][i] == r.value;
          forall j | 0 <= j < i + 1 ensures !p(xs[j]) {
            if j > 0 { assert xs[j] == xs[1..][j - 1]; }
          }
          assert FirstAt(xs, p, i + 1);
        }
      }
      assert r.None? ==> forall i :: 0 <= i < |xs| ==> !p(xs[i]) by {
        if r.None? {
          forall i | 0 < i < |xs| ensures !p(xs[i]) { assert xs[i] == xs[1..][i - 1]; }
        }
      }
      r
  }
}

/** The task record and the sort configuration (src/types/task.ts,
    src/components/tasks/types.ts). */
module Tasks {
  import opened Optional

  /** The closed set of statuses. */
  datatype Status = InProgress | Pending | Completed

  /** The string each status is stored as. */
  function Code(s: Status): string {
    match s
    case InProgress => "in_progress"
    case Pending => "pending"
    case Completed => "completed"
  }

  /** Recognises a stored status string; anything but the three codes is not a status. */
  function Parse(code: string): (r: Option<Status>)
    ensures r.Some? ==> Code(r.value) == code
    ensures forall s: Status :: Code(s) == code ==> r == Some(s)
  {
    if code == "in_progress" then Some(InProgress)
    else if code == "pending" then Some(Pending)
    else if code == "completed" then Some(Completed)
    else None
  }

  datatype Assignee = Assignee(name: string, avatar: string)

  /** A task. `status` holds the stored string: the type system of the source
      restricts it to the three codes, but form inputs can write any string
      into it, and filtering, sorting and validation all work on the string. */
  datatype Task = Task(
    id: string,
    title: string,
    description: string,
    status: string,
    dueDate: string,
    assignee: Assignee
  )

  datatype SortField = ByTitle | ByStatus | ByDueDate | ByAssignee
  datatype SortDirection = Asc | Desc
  datatype SortConfig = SortConfig(field: SortField, direction: SortDirection)

  /** The sort the page starts with: due date, ascending. */
  const DefaultSort := SortConfig(ByDueDate, Asc)

  /** The ids present in a collection. */
  function Ids(tasks: seq<Task>): set<string> {
    set t | t in tasks :: t.id
  }

  /** `a` is `b` with some elements left out and the rest in their order. */
  ghost predicate IsSubsequence(a: seq<Task>, b: seq<Task>)
    decreases |b|
  {
    |a| <= |b| &&
    (|a| == 0 || (a[0] == b[0] && IsSubsequence(a[1..], b[1..])) || IsSubsequence(a, b[1..]))
  }

  /** No two positions of the collection carry the same id. */
  predicate UniqueIds(tasks: seq<Task>) {
    forall i, j :: 0 <= i < j < |tasks| ==> tasks[i].id != tasks[j].id
  }
}
