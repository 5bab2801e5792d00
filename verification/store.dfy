/** The in-memory task store behind the mock data source
    (src/hooks/useMockTasks.ts): fetch, create, update and delete. The
    simulated latency is not modelled; the clock reading that mints ids is a
    parameter. */
module TaskStore {
  import opened Strings
  import opened Tasks

  /** The id minted for a task created when the clock reads `now` milliseconds:
      Date.now().toString(). */
  function MintedId(now: nat): (r: string)
    ensures |r| >= 1 && forall i :: 0 <= i < |r| ==> IsDigit(r[i])
    ensures DigitsValue(r) == now
  {
    Decimal(now)
  }

  /** Two creates mint the same id exactly when the clock read the same. */
  lemma MintedIdInjective(a: nat, b: nat)
    ensures MintedId(a) == MintedId(b) <==> a == b
  {
  }

  /** fetchTasks: a fresh copy of the whole store, element for element. */
  function FetchTasks(store: seq<Task>): (r: seq<Task>)
    ensures |r| == |store| && forall i :: 0 <= i < |r| ==> r[i] == store[i]
  {
    store[..]
  }

  /** Create: the new task, carrying the minted id, goes in front of the old store. */
  function CreateTask(store: seq<Task>, draft: Task, id: string): (r: seq<Task>)
    ensures |r| == |store| + 1
    ensures r[0] == draft.(id := id) && r[1..] == store
    ensures Ids(r) == Ids(store) + {id}
  {
    var r := [draft.(id := id)] + store;
    assert r[1..] == store;
    assert forall i :: 0 < i < |r| ==> r[i] == store[i - 1];
    r
  }

  /** A fresh id keeps the ids of the store unique. */
  lemma CreateKeepsIdsUnique(store: seq<Task>, draft: Task, id: string)
    requires UniqueIds(store) && id !in Ids(store)
    ensures UniqueIds(CreateTask(store, draft, id))
  {
    UniqueCons(draft.(id := id), store);
  }

  /** Update: every task carrying the id of `task` is replaced by it. */
  function UpdateTask(store: seq<Task>, task: Task): (r: seq<Task>)
    ensures |r| == |store|
    ensures forall i :: 0 <= i < |store| ==> r[i] == if store[i].id == task.id then task else store[i]
    ensures forall i :: 0 <= i < |store| ==> r[i].id == store[i].id
  {
    if |store| == 0 then []
    else [if store[0].id == task.id then task else store[0]] + UpdateTask(store[1..], task)
  }

  /** Updating an id the store does not hold changes nothing. */
  lemma UpdateAbsentIsNoop(store: seq<Task>, task: Task)
    requires task.id !in Ids(store)
    ensures UpdateTask(store, task) == store
  {
  }

  /** An update keeps every position's id, so the set of ids is the same and
      unique ids stay unique. */
  lemma UpdateKeepsIds(store: seq<Task>, task: Task)
    ensures Ids(UpdateTask(store, task)) == Ids(store)
    ensures UniqueIds(store) ==> UniqueIds(UpdateTask(store, task))
  {
    var r := UpdateTask(store, task);
    forall x | x in Ids(r) ensures x in Ids(store) {
      var i :| 0 <= i < |r| && r[i].id == x;
    }
    forall x | x in Ids(store) ensures x in Ids(r) {
      var i :| 0 <= i < |store| && store[i].id == x;
    }
  }

  /** The updated task is in the store afterwards exactly when its id was before. */
  lemma UpdateInstalls(store: seq<Task>, task: Task)
    ensures task in UpdateTask(store, task) <==> task.id in Ids(store)
  {
    var r := UpdateTask(store, task);
    if task.id in Ids(store) {
      var i :| 0 <= i < |store| && store[i].id == task.id;
      assert r[i] == task;
    }
    if task in r {
      var i :| 0 <= i < |r| && r[i] == task;
      assert store[i].id == task.id;
    }
  }

  /** Delete: the tasks carrying `id` go, the others stay in their order. */
  function DeleteTask(store: seq<Task>, id: string): (r: seq<Task>)
    ensures forall t :: t in r <==> t in store && t.id != id
    ensures IsSubsequence(r, store)
    ensures forall t :: multiset(r)[t] == if t.id == id then 0 else multiset(store)[t]
  {
    if |store| == 0 then []
    else
      var rest := DeleteTask(store[1..], id);
      assert store == [store[0]] + store[1..];
      if store[0].id != id then
        var r := [store[0]] + rest;
        assert r[1..] == rest;
        r
      else rest
  }

  /** Deleting an id the store does not hold changes nothing. */
  lemma {:induction false} DeleteAbsentIsNoop(store: seq<Task>, id: string)
    requires id !in Ids(store)
    ensures DeleteTask(store, id) == store
  {
    if |store| > 0 {
      IdsCons(store);
      DeleteAbsentIsNoop(store[1..], id);
      assert store == [store[0]] + store[1..];
    }
  }

  /** The ids of a non-empty list are its head's id and the ids of its tail. */
  lemma IdsCons(store: seq<Task>)
    requires |store| > 0
    ensures Ids(store) == {store[0].id} + Ids(store[1..])
  {
    forall x | x in Ids(store) ensures x in {store[0].id} + Ids(store[1..]) {
      var k :| 0 <= k < |store| && store[k].id == x;
      if k > 0 {
        assert store[1..][k - 1] == store[k];
      }
    }
    forall x | x in Ids(store[1..]) ensures x in Ids(store) {
      var k :| 0 <= k < |store[1..]| && store[1..][k].id == x;
      assert store[k + 1] == store[1..][k];
    }
  }

  /** After a delete the ids are the old ones without `id`. */
  lemma DeleteIds(store: seq<Task>, id: string)
    ensures Ids(DeleteTask(store, id)) == Ids(store) - {id}
  {
    var r := DeleteTask(store, id);
    forall x | x in Ids(r) ensures x in Ids(store) && x != id {
      var i :| 0 <= i < |r| && r[i].id == x;
      assert r[i] in r;
    }
    forall x | x in Ids(store) && x != id ensures x in Ids(r) {
      var k :| 0 <= k < |store| && store[k].id == x;
      assert store[k] in r;
    }
  }

  /** A task whose id the rest lacks may go in front of a list with unique ids. */
  lemma UniqueCons(x: Task, rest: seq<Task>)
    requires UniqueIds(rest) && x.id !in Ids(rest)
    ensures UniqueIds([x] + rest)
  {
    var r := [x] + rest;
    forall i, j | 0 <= i < j < |r| ensures r[i].id != r[j].id {
      assert r[j] == rest[j - 1];
      if i > 0 { assert r[i] == rest[i - 1]; }
    }
  }

  /** The tail of a list with unique ids has unique ids and lacks the head's id. */
  lemma UniqueTail(store: seq<Task>)
    requires |store| > 0 && UniqueIds(store)
    ensures UniqueIds(store[1..]) && store[0].id !in Ids(store[1..])
  {
    var tail := store[1..];
    forall i, j | 0 <= i < j < |tail| ensures tail[i].id != tail[j].id {
      assert tail[i] == store[i + 1] && tail[j] == store[j + 1];
    }
    forall k | 0 <= k < |tail| ensures tail[k].id != store[0].id {
      assert tail[k] == store[k + 1];
    }
  }

  /** With unique ids, deleting a present id removes exactly one task, and the
      remaining ids stay unique. */
  lemma {:induction false} DeleteRemovesOne(store: seq<Task>, id: string)
    requires UniqueIds(store)
    ensures id in Ids(store) ==> |DeleteTask(store, id)| == |store| - 1
    ensures UniqueIds(DeleteTask(store, id))
  {
    if |store| > 0 {
      var tail := store[1..];
      UniqueTail(store);
      DeleteRemovesOne(tail, id);
      if store[0].id == id {
        DeleteAbsentIsNoop(tail, id);
      } else {
        DeleteIds(tail, id);
        UniqueCons(store[0], DeleteTask(tail, id));
        if id in Ids(store) {
          var t :| t in store && t.id == id;
          var k :| 0 <= k < |store| && store[k] == t;
          assert tail[k - 1] == t;
        }
      }
    }
  }
}

/** The query cache entry for the task list and the optimistic-mutation
    protocol around each store operation (src/hooks/useMockTasks.ts). The
    cache entry is absent (`undefined`) until the first fetch completes. */
module TaskCache {
  import opened Optional
  import opened Strings
  import opened Tasks
  import opened TaskStore

  type Cache = Option<seq<Task>>

  datatype Mutation =
    | CreateMutation(draft: Task)
    | UpdateMutation(task: Task)
    | DeleteMutation(id: string)

  /** The store operation behind a mutation; `now` is the clock reading when it runs. */
  function ApplyToStore(store: seq<Task>, m: Mutation, now: nat): seq<Task> {
    match m
    case CreateMutation(draft) => CreateTask(store, draft, MintedId(now))
    case UpdateMutation(task) => UpdateTask(store, task)
    case DeleteMutation(id) => DeleteTask(store, id)
  }

  /** The placeholder id of an optimistically created task. */
  function OptimisticId(now: nat): (r: string)
    ensures |r| > 11 && r[..11] == "optimistic-"
    ensures forall i :: 11 <= i < |r| ==> IsDigit(r[i])
    ensures DigitsValue(r[11..]) == now
  {
    var r := "optimistic-" + Decimal(now);
    assert r[11..] == Decimal(now);
    r
  }

  /** A placeholder id never coincides with an id the store mints. */
  lemma OptimisticIdNotMinted(a: nat, b: nat)
    ensures OptimisticId(a) != MintedId(b)
  {
    assert OptimisticId(a)[0] == 'o';
  }

  /** The speculative change applied to the cached list. */
  function ApplyOptimistic(cached: seq<Task>, m: Mutation, now: nat): seq<Task> {
    match m
    case CreateMutation(draft) => [draft.(id := OptimisticId(now))] + cached
    case UpdateMutation(task) => UpdateTask(cached, task)
    case DeleteMutation(id) => DeleteTask(cached, id)
  }

  datatype Mutated = Mutated(cache: Cache, snapshot: Cache)

  /** onMutate: remember the entry as it was, then write the speculative list,
      starting from the empty list when the entry is absent. */
  function OnMutate(cache: Cache, m: Mutation, now: nat): (r: Mutated)
    ensures r.snapshot == cache
    ensures r.cache.Some?
    ensures m.CreateMutation? ==>
      && |r.cache.value| == |cache.GetOr([])| + 1
      && r.cache.value[0] == m.draft.(id := OptimisticId(now))
      && r.cache.value[1..] == cache.GetOr([])
    ensures m.UpdateMutation? ==> r.cache.value == UpdateTask(cache.GetOr([]), m.task)
    ensures m.DeleteMutation? ==> r.cache.value == DeleteTask(cache.GetOr([]), m.id)
  {
    var r := Mutated(Some(ApplyOptimistic(cache.GetOr([]), m, now)), cache);
    assert m.CreateMutation? ==> r.cache.value[1..] == cache.GetOr([]);
    r
  }

  /** queryClient.setQueryData with a plain value: writing `undefined` leaves
      the entry as it is. */
  function SetQueryData(cache: Cache, value: Cache): (r: Cache)
    ensures value.Some? ==> r == value
    ensures value.None? ==> r == cache
  {
    if value.Some? then value else cache
  }

  /** onError: write the snapshot back. */
  function OnError(cache: Cache, snapshot: Cache): Cache {
    SetQueryData(cache, snapshot)
  }

  /** onSettled: invalidating the entry refetches it from the store. */
  function OnSettled(store: seq<Task>): (r: Cache)
    ensures r == Some(store)
  {
    Some(FetchTasks(store))
  }

  /** Whenever the list was cached before the mutation, a failure puts back
      exactly what was cached. */
  lemma RollbackRestoresSnapshot(cache: Cache, m: Mutation, now: nat)
    requires cache.Some?
    ensures var mutated := OnMutate(cache, m, now);
      OnError(mutated.cache, mutated.snapshot) == cache
  {
  }

  /** With no list cached before the mutation, the snapshot is `undefined` and
      writing it back is ignored: the speculative list stays until the refetch. */
  lemma RollbackWithoutSnapshot(m: Mutation, now: nat)
    ensures var mutated := OnMutate(None, m, now);
      OnError(mutated.cache, mutated.snapshot) == mutated.cache != None
  {
  }

  /** When the cache mirrors the store, the speculative update and delete are
      exactly what the store will do, and the speculative create differs only in
      the placeholder id of the new first task. */
  lemma OptimisticAgreesWithStore(store: seq<Task>, m: Mutation, optimisticNow: nat, now: nat)
    ensures var speculative := OnMutate(Some(store), m, optimisticNow).cache.value;
      var actual := ApplyToStore(store, m, now);
      && |speculative| == |actual|
      && (!m.CreateMutation? ==> speculative == actual)
      && (m.CreateMutation? ==>
            speculative[1..] == actual[1..] && speculative[0] == actual[0].(id := OptimisticId(optimisticNow)))
  {
  }

  datatype Settled = Settled(store: seq<Task>, cache: Cache)

  /** One mutation from start to finish: onMutate, the store operation (which
      either succeeds or throws), onError on a throw, then onSettled. */
  function RunMutation(store: seq<Task>, cache: Cache, m: Mutation, optimisticNow: nat, now: nat, fails: bool): (r: Settled)
    ensures fails ==> r.store == store
    ensures !fails ==> r.store == ApplyToStore(store, m, now)
    ensures r.cache == Some(r.store)
  {
    var mutated := OnMutate(cache, m, optimisticNow);
    var store' := if fails then store else ApplyToStore(store, m, now);
    var cache' := if fails then OnError(mutated.cache, mutated.snapshot) else mutated.cache;
    Settled(store', SetQueryData(cache', OnSettled(store')))
  }
}
