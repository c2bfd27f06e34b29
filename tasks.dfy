/**
  The task records of the service and, for each request handler, a pure
  description of what it does to the ordered collection of records and what
  it answers. The class in module TaskStore is proved to behave exactly as
  these functions say; the lemmas at the end relate several operations.
 */
module Tasks {
  import Decimal

  datatype Option<T> = None | Some(value: T)

  /** One stored record (the Go struct `Tasks`). */
  datatype Task = Task(id: string, taskName: string, taskDetails: string, date: string, completed: bool)

  /** A request body after JSON decoding: the decoded record, or a body that
      could not be decoded. Fields absent from the JSON are already at their
      zero value ("" or false) in the decoded record. */
  datatype Body = Decoded(payload: Task) | Malformed

  /** What a handler answers, in place of the HTTP response it writes:
      Ok is status 200 with the record, Created status 201 with the record,
      Deleted the success message of a delete, NotFound status 404 and
      InvalidFormat status 400. */
  datatype Response = Ok(task: Task) | Created(task: Task) | Deleted | NotFound | InvalidFormat

  /** The collection after a handler has run, and its answer. */
  datatype Step = Step(tasks: seq<Task>, response: Response)

  /** The two records the service is seeded with at startup. */
  const FirstSample := Task("1", "New project idea", "Brainstorm new project ideas for Q3", "2023-11-25", false)
  const SecondSample := Task("2", "Weekly report", "Prepare weekly status report for management", "2023-11-26", true)

  /** The largest id number drawn, exclusive. */
  const IdRange := 10000

  predicate HasId(ts: seq<Task>, id: string) {
    exists i :: 0 <= i < |ts| && ts[i].id == id
  }

  /** i is the position of the first record, in collection order, whose id
      equals `id`. */
  predicate IsFirst(ts: seq<Task>, id: string, i: int) {
    0 <= i < |ts| && ts[i].id == id && forall j :: 0 <= j < i ==> ts[j].id != id
  }

  /** Number of records carrying the id `id`. */
  function Occurrences(ts: seq<Task>, id: string): nat
  {
    if ts == [] then 0 else Occurrences(ts[..|ts| - 1], id) + (if ts[|ts| - 1].id == id then 1 else 0)
  }

  /** The position every handler's `for index, task := range tasks` loop
      stops at: the first record whose id equals `id` exactly. */
  function FirstMatch(ts: seq<Task>, id: string): (r: Option<nat>)
    ensures r.None? <==> !HasId(ts, id)
    ensures r.Some? ==> IsFirst(ts, id, r.value)
  {
    if ts == [] then None
    else if ts[0].id == id then Some(0)
    else match FirstMatch(ts[1..], id)
      case None =>
        assert forall i :: 1 <= i < |ts| ==> ts[i] == ts[1..][i - 1];
        None
      case Some(k) =>
        assert forall j :: 1 <= j < k + 1 ==> ts[j] == ts[1..][j - 1];
        Some(k + 1)
  }

  /** Two record sequences with the same ids at every position have their
      first match for any id at the same place. */
  lemma SameIdsSameFirst(ts: seq<Task>, us: seq<Task>, id: string, i: int)
    requires |ts| == |us|
    requires forall j :: 0 <= j < |ts| ==> ts[j].id == us[j].id
    requires IsFirst(ts, id, i)
    ensures IsFirst(us, id, i)
  {
  }

  /** getTask: the first record with the id, or NotFound. */
  function Lookup(ts: seq<Task>, id: string): (r: Response)
    ensures r.Ok? || r.NotFound?
    ensures r.NotFound? <==> !HasId(ts, id)
    ensures forall i :: IsFirst(ts, id, i) ==> r == Ok(ts[i])
  {
    match FirstMatch(ts, id)
    case None => NotFound
    case Some(i) =>
      assert forall k :: IsFirst(ts, id, k) ==> k == i;
      Ok(ts[i])
  }

  /** The record createTask stores for a decoded payload `p`, given the drawn
      number `n` and the current date `today`. */
  function NewRecord(p: Task, n: nat, today: string): Task
  {
    var withId := p.(id := Decimal.Itoa(n));
    if withId.date == "" then withId.(date := today) else withId
  }

  /** createTask: a malformed body is refused and nothing changes; otherwise
      exactly one record is appended, whose id is the decimal rendering of
      the drawn number (whatever id the body held), whose date is today's
      only if the body's was empty, and whose other fields are the body's. */
  function Create(ts: seq<Task>, body: Body, n: nat, today: string): (s: Step)
    requires n < IdRange
    ensures body.Malformed? ==> s == Step(ts, InvalidFormat)
    ensures body.Decoded? ==> s.response.Created? && s.tasks == ts + [s.response.task]
    ensures body.Decoded? ==>
      var t, p := s.response.task, body.payload;
      && Decimal.IsCanonical(t.id) && Decimal.Atoi(t.id) == n && Decimal.Atoi(t.id) < IdRange
      && t.taskName == p.taskName && t.taskDetails == p.taskDetails && t.completed == p.completed
      && (p.date == "" ==> t.date == today)
      && (p.date != "" ==> t.date == p.date)
  {
    match body
    case Malformed => Step(ts, InvalidFormat)
    case Decoded(p) =>
      Decimal.AtoiItoa(n);
      var t := NewRecord(p, n, today);
      Step(ts + [t], Created(t))
  }

  /** deleteTask: an order-preserving removal of the first record with the
      id; NotFound and no change when there is none. */
  function Delete(ts: seq<Task>, id: string): (s: Step)
    ensures s.response == (if HasId(ts, id) then Deleted else NotFound)
    ensures !HasId(ts, id) ==> s.tasks == ts
    ensures HasId(ts, id) ==> |s.tasks| == |ts| - 1
    ensures forall i :: IsFirst(ts, id, i) ==>
      && (forall j :: 0 <= j < i ==> s.tasks[j] == ts[j])
      && (forall j :: i <= j < |s.tasks| ==> s.tasks[j] == ts[j + 1])
  {
    match FirstMatch(ts, id)
    case None => Step(ts, NotFound)
    case Some(i) =>
      assert forall k :: IsFirst(ts, id, k) ==> k == i;
      Step(ts[..i] + ts[i + 1..], Deleted)
  }

  /** updateTask: the body is decoded first, so a malformed body is refused
      even for an unknown id. For a decoded body the first record with the id
      is replaced by the whole payload with its id forced to `id` (nothing of
      the old record is merged back); every other record and the length stay
      as they were. */
  function Update(ts: seq<Task>, id: string, body: Body): (s: Step)
    ensures body.Malformed? ==> s == Step(ts, InvalidFormat)
    ensures body.Decoded? && !HasId(ts, id) ==> s == Step(ts, NotFound)
    ensures body.Decoded? ==> forall i :: IsFirst(ts, id, i) ==>
      && |s.tasks| == |ts|
      && s.tasks[i] == body.payload.(id := id)
      && (forall j :: 0 <= j < |ts| && j != i ==> s.tasks[j] == ts[j])
      && s.response == Ok(s.tasks[i])
  {
    match body
    case Malformed => Step(ts, InvalidFormat)
    case Decoded(p) =>
      match FirstMatch(ts, id)
      case None => Step(ts, NotFound)
      case Some(i) =>
        assert forall k :: IsFirst(ts, id, k) ==> k == i;
        var t := p.(id := id);
        Step(ts[i := t], Ok(t))
  }

  /** toggleTaskStatus: flips `completed` of the first record with the id and
      answers with the flipped record; every other field and record is left
      as it was. NotFound and no change when there is none. */
  function Toggle(ts: seq<Task>, id: string): (s: Step)
    ensures !HasId(ts, id) ==> s == Step(ts, NotFound)
    ensures forall i :: IsFirst(ts, id, i) ==>
      && |s.tasks| == |ts|
      && s.tasks[i].completed == !ts[i].completed
      && s.tasks[i].(completed := ts[i].completed) == ts[i]
      && (forall j :: 0 <= j < |ts| && j != i ==> s.tasks[j] == ts[j])
      && s.response == Ok(s.tasks[i])
  {
    match FirstMatch(ts, id)
    case None => Step(ts, NotFound)
    case Some(i) =>
      assert forall k :: IsFirst(ts, id, k) ==> k == i;
      var t := ts[i].(completed := !ts[i].completed);
      Step(ts[i := t], Ok(t))
  }

  // ---------------------------------------------------------------------
  // Properties that relate several operations.

  /** Every id createTask generates is a canonical decimal string of one to
      four digits. */
  lemma GeneratedId(n: nat)
    requires n < IdRange
    ensures Decimal.IsCanonical(Decimal.Itoa(n))
    ensures 1 <= |Decimal.Itoa(n)| <= 4
  {
    assert Decimal.Pow10(4) == IdRange;
    Decimal.ItoaLength(n, 4);
  }

  /** Round trip: after a create whose generated id no earlier record
      carries, getTask on that id returns exactly the stored record. */
  lemma CreateThenLookup(ts: seq<Task>, p: Task, n: nat, today: string)
    requires n < IdRange
    requires !HasId(ts, Decimal.Itoa(n))
    ensures var s := Create(ts, Decoded(p), n, today);
      Lookup(s.tasks, Decimal.Itoa(n)) == Ok(s.response.task)
  {
    var s := Create(ts, Decoded(p), n, today);
    assert s.tasks[|ts|].id == Decimal.Itoa(n);
    assert IsFirst(s.tasks, Decimal.Itoa(n), |ts|);
  }

  /** No uniqueness check is made at creation: when the drawn id is one an
      earlier record already carries, the new record is stored anyway and is
      hidden from getTask, which keeps returning the earlier record. */
  lemma CreateCollisionShadows(ts: seq<Task>, p: Task, n: nat, today: string)
    requires n < IdRange
    requires HasId(ts, Decimal.Itoa(n))
    ensures var s := Create(ts, Decoded(p), n, today);
      && |s.tasks| == |ts| + 1
      && Lookup(s.tasks, Decimal.Itoa(n)) == Lookup(ts, Decimal.Itoa(n))
  {
    var s := Create(ts, Decoded(p), n, today);
    var i := FirstMatch(ts, Decimal.Itoa(n)).value;
    assert IsFirst(s.tasks, Decimal.Itoa(n), i);
  }

  /** The collision is reachable from the seeded state: drawing 1 stores a
      record with id "1" that getTask cannot reach, since the first seed
      record answers for that id. */
  lemma SeedCollision(p: Task, today: string)
    ensures var s := Create([FirstSample, SecondSample], Decoded(p), 1, today);
      && s.response.task.id == FirstSample.id
      && Lookup(s.tasks, "1") == Ok(FirstSample)
  {
    var s := Create([FirstSample, SecondSample], Decoded(p), 1, today);
    assert Decimal.Itoa(1) == "1";
    assert IsFirst(s.tasks, "1", 0);
  }

  /** Two creates from the same payload with different drawn numbers store
      two distinct records, each found by its own id. */
  lemma CreateTwiceDistinct(ts: seq<Task>, p: Task, m: nat, n: nat, today: string)
    requires m < IdRange && n < IdRange && m != n
    requires !HasId(ts, Decimal.Itoa(m)) && !HasId(ts, Decimal.Itoa(n))
    ensures var s1 := Create(ts, Decoded(p), m, today);
      var s2 := Create(s1.tasks, Decoded(p), n, today);
      && s1.response.task != s2.response.task
      && Lookup(s2.tasks, Decimal.Itoa(m)) == Ok(s1.response.task)
      && Lookup(s2.tasks, Decimal.Itoa(n)) == Ok(s2.response.task)
  {
    Decimal.ItoaInjective(m, n);
    var s1 := Create(ts, Decoded(p), m, today);
    var s2 := Create(s1.tasks, Decoded(p), n, today);
    assert IsFirst(s2.tasks, Decimal.Itoa(m), |ts|);
    assert IsFirst(s2.tasks, Decimal.Itoa(n), |ts| + 1);
  }

  lemma {:induction false} OccurrencesAppend(a: seq<Task>, b: seq<Task>, id: string)
    ensures Occurrences(a + b, id) == Occurrences(a, id) + Occurrences(b, id)
    decreases |b|
  {
    if b == [] {
      assert a + b == a;
    } else {
      var b' := b[..|b| - 1];
      assert (a + b)[..|a + b| - 1] == a + b';
      OccurrencesAppend(a, b', id);
    }
  }

  lemma {:induction false} OccurrencesSingle(t: Task, id: string)
    ensures Occurrences([t], id) == if t.id == id then 1 else 0
  {
    assert [t][..0] == [];
  }

  /** deleteTask removes exactly one record carrying the id. */
  lemma DeleteRemovesOne(ts: seq<Task>, id: string)
    requires HasId(ts, id)
    ensures Occurrences(Delete(ts, id).tasks, id) == Occurrences(ts, id) - 1
  {
    var i := FirstMatch(ts, id).value;
    assert ts == ts[..i] + [ts[i]] + ts[i + 1..];
    OccurrencesAppend(ts[..i] + [ts[i]], ts[i + 1..], id);
    OccurrencesAppend(ts[..i], [ts[i]], id);
    OccurrencesAppend(ts[..i], ts[i + 1..], id);
    OccurrencesSingle(ts[i], id);
    assert Delete(ts, id).tasks == ts[..i] + ts[i + 1..];
  }

  lemma {:induction false} NoOccurrences(ts: seq<Task>, id: string)
    ensures Occurrences(ts, id) == 0 <==> !HasId(ts, id)
    decreases |ts|
  {
    if ts != [] {
      var p := ts[..|ts| - 1];
      NoOccurrences(p, id);
      assert forall i :: 0 <= i < |p| ==> p[i] == ts[i];
    }
  }

  /** When a single record carries the id, getTask on that id answers
      NotFound after the delete. */
  lemma DeleteThenLookup(ts: seq<Task>, id: string)
    requires Occurrences(ts, id) == 1
    ensures Delete(ts, id).response == Deleted
    ensures Lookup(Delete(ts, id).tasks, id) == NotFound
  {
    NoOccurrences(ts, id);
    DeleteRemovesOne(ts, id);
    NoOccurrences(Delete(ts, id).tasks, id);
  }

  /** After an update of a present id, getTask on that id returns the payload
      with the id forced. */
  lemma UpdateThenLookup(ts: seq<Task>, id: string, p: Task)
    requires HasId(ts, id)
    ensures Lookup(Update(ts, id, Decoded(p)).tasks, id) == Ok(p.(id := id))
  {
    var i := FirstMatch(ts, id).value;
    SameIdsSameFirst(ts, Update(ts, id, Decoded(p)).tasks, id, i);
  }

  /** Update replaces and does not merge: what is stored depends only on the
      payload and the id, not on the record it replaces. */
  lemma UpdateIgnoresOldRecord(ts: seq<Task>, us: seq<Task>, id: string, p: Task)
    requires HasId(ts, id) && HasId(us, id)
    ensures Update(ts, id, Decoded(p)).response == Update(us, id, Decoded(p)).response
  {
  }

  /** Toggling the same id twice gives back the collection it started from,
      and the second answer is the original record. */
  lemma ToggleTwice(ts: seq<Task>, id: string)
    ensures Toggle(Toggle(ts, id).tasks, id).tasks == ts
    ensures HasId(ts, id) ==> Toggle(Toggle(ts, id).tasks, id).response == Lookup(ts, id)
  {
    if HasId(ts, id) {
      var i := FirstMatch(ts, id).value;
      var once := Toggle(ts, id).tasks;
      SameIdsSameFirst(ts, once, id, i);
      assert Toggle(once, id).tasks == ts;
    }
  }

  /** Every operation that changes the collection, applied to an id no
      record carries, answers NotFound and changes nothing. */
  lemma AbsentIdChangesNothing(ts: seq<Task>, id: string, body: Body)
    requires !HasId(ts, id)
    ensures Lookup(ts, id) == NotFound
    ensures Delete(ts, id) == Step(ts, NotFound)
    ensures Toggle(ts, id) == Step(ts, NotFound)
    ensures Update(ts, id, body) == Step(ts, if body.Malformed? then InvalidFormat else NotFound)
  {
  }
}
