/**
  The service's process-wide slice of task records and its handlers. Each
  handler scans the slice with a `for index, task := range tasks` loop that
  returns at the first record whose id matches, and each method here is
  proved to leave the collection and give the answer that the matching
  function of module Tasks describes.
 */
module TaskStore {
  import opened Tasks
  import Decimal

  class Store {
    /** The records, in the order they are kept and listed. */
    var tasks: seq<Task>

    /** The slice before startup: empty. */
    constructor ()
      ensures tasks == []
    {
      tasks := [];
    }

    /** initSampleTasks: appends the two seed records. */
    method InitSampleTasks()
      modifies this
      ensures tasks == old(tasks) + [FirstSample, SecondSample]
    {
      tasks := tasks + [FirstSample];
      tasks := tasks + [SecondSample];
    }

    /** getTasks: the whole collection, in order. */
    method GetTasks() returns (all: seq<Task>)
      ensures all == tasks
    {
      all := tasks;
    }

    /** getTask: the first record whose id equals `id`, else NotFound. */
    method GetTask(id: string) returns (r: Response)
      ensures r == Lookup(tasks, id)
    {
      var ts := tasks;
      var index := 0;
      while index < |ts|
        invariant 0 <= index <= |ts|
        invariant forall j :: 0 <= j < index ==> ts[j].id != id
      {
        if ts[index].id == id {
          assert IsFirst(ts, id, index);
          return Ok(ts[index]);
        }
        index := index + 1;
      }
      return NotFound;
    }

    /** createTask, with the decoded request body, the number drawn by
        `rand.Intn(10000)` and the current date passed in. */
    method CreateTask(body: Body, n: nat, today: string) returns (r: Response)
      requires n < IdRange
      modifies this
      ensures Step(tasks, r) == Create(old(tasks), body, n, today)
    {
      if body.Malformed? {
        return InvalidFormat;
      }
      var task := body.payload;
      task := task.(id := Decimal.Itoa(n));
      if task.date == "" {
        task := task.(date := today);
      }
      tasks := tasks + [task];
      r := Created(task);
    }

    /** deleteTask: splices out the first record whose id equals `id`. */
    method DeleteTask(id: string) returns (r: Response)
      modifies this
      ensures Step(tasks, r) == Delete(old(tasks), id)
    {
      var ts := tasks;
      var index := 0;
      while index < |ts|
        invariant 0 <= index <= |ts|
        invariant tasks == ts
        invariant forall j :: 0 <= j < index ==> ts[j].id != id
      {
        if ts[index].id == id {
          assert IsFirst(ts, id, index);
          tasks := ts[..index] + ts[index + 1..];
          return Deleted;
        }
        index := index + 1;
      }
      return NotFound;
    }

    /** updateTask: decodes first, then replaces the whole first record whose
        id equals `id` with the payload, its id forced to `id`. */
    method UpdateTask(id: string, body: Body) returns (r: Response)
      modifies this
      ensures Step(tasks, r) == Update(old(tasks), id, body)
    {
      if body.Malformed? {
        return InvalidFormat;
      }
      var updatedTask := body.payload;
      var ts := tasks;
      var index := 0;
      while index < |ts|
        invariant 0 <= index <= |ts|
        invariant tasks == ts
        invariant forall j :: 0 <= j < index ==> ts[j].id != id
      {
        if ts[index].id == id {
          assert IsFirst(ts, id, index);
          updatedTask := updatedTask.(id := id);
          tasks := ts[index := updatedTask];
          return Ok(updatedTask);
        }
        index := index + 1;
      }
      return NotFound;
    }

    /** toggleTaskStatus: flips `completed` of the first record whose id
        equals `id` in place and answers with that record. */
    method ToggleTaskStatus(id: string) returns (r: Response)
      modifies this
      ensures Step(tasks, r) == Toggle(old(tasks), id)
    {
      var ts := tasks;
      var index := 0;
      while index < |ts|
        invariant 0 <= index <= |ts|
        invariant tasks == ts
        invariant forall j :: 0 <= j < index ==> ts[j].id != id
      {
        if ts[index].id == id {
          assert IsFirst(ts, id, index);
          tasks := tasks[index := tasks[index].(completed := !tasks[index].completed)];
          return Ok(tasks[index]);
        }
        index := index + 1;
      }
      return NotFound;
    }
  }

  /** The documented end-to-end exchange on a freshly started service: create
      a record with an empty date, fetch it, toggle it, delete it, fetch it
      again. The drawn number must differ from the seed ids 1 and 2, since a
      collision would make the later requests reach a seed record. */
  method EndToEnd(n: nat, today: string)
    returns (created: Response, fetched: Response, toggled: Response, deleted: Response, refetched: Response)
    requires n < IdRange && n != 1 && n != 2
    ensures created.Created?
    ensures created.task == Task(Decimal.Itoa(n), "X", "Y", today, false)
    ensures Decimal.IsCanonical(created.task.id)
    ensures fetched == Ok(created.task)
    ensures toggled == Ok(created.task.(completed := true))
    ensures deleted == Deleted
    ensures refetched == NotFound
  {
    var store := new Store();
    store.InitSampleTasks();
    assert store.tasks == [FirstSample, SecondSample];
    var id := Decimal.Itoa(n);
    Decimal.ItoaInjective(n, 1);
    Decimal.ItoaInjective(n, 2);
    assert !HasId(store.tasks, id);
    created := store.CreateTask(Decoded(Task("", "X", "Y", "", false)), n, today);
    CreateThenLookup([FirstSample, SecondSample], Task("", "X", "Y", "", false), n, today);
    fetched := store.GetTask(id);
    toggled := store.ToggleTaskStatus(id);
    deleted := store.DeleteTask(id);
    refetched := store.GetTask(id);
  }
}
