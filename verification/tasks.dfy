/** The task record held in the dashboard's local cache, and lookup by id. */
module Tasks {

  datatype Option<+T> = None | Some(value: T)

  /** The priorities the form's select offers. */
  datatype Priority = High | Medium | Low

  /** The store's opaque identifier (`_id`). */
  type TaskId = string

  /** A task as returned by the store; `dueDate` is the `YYYY-MM-DD` text. */
  datatype Task = Task(
    id: TaskId,
    title: string,
    description: string,
    dueDate: string,
    priority: Priority,
    completed: bool)

  /** Some task of `ts` carries `id`. */
  predicate HasId(ts: seq<Task>, id: TaskId) {
    exists i :: 0 <= i < |ts| && ts[i].id == id
  }

  /** No two tasks of the cache share an id, as the store guarantees. */
  ghost predicate UniqueIds(ts: seq<Task>) {
    forall i, j :: 0 <= i < |ts| && 0 <= j < |ts| && ts[i].id == ts[j].id ==> i == j
  }

  /** Position `i` holds the first task of `ts` with `id`. */
  ghost predicate FirstWithId(ts: seq<Task>, id: TaskId, i: int) {
    0 <= i < |ts| && ts[i].id == id && forall j :: 0 <= j < i ==> ts[j].id != id
  }

  /** The lookup the completion button performs: the first task with `id`, or `None`
      when there is none. */
  function FindById(ts: seq<Task>, id: TaskId): (r: Option<Task>)
    ensures r.None? <==> !HasId(ts, id)
    ensures r.Some? ==> r.value in ts && r.value.id == id
  {
    if |ts| == 0 then None
    else if ts[0].id == id then Some(ts[0])
    else FindById(ts[1..], id)
  }

  /** The task found is the first one with the id, not just any. */
  lemma {:induction false} FindByIdIsFirst(ts: seq<Task>, id: TaskId)
    requires HasId(ts, id)
    ensures exists i :: FirstWithId(ts, id, i) && FindById(ts, id) == Some(ts[i])
  {
    if ts[0].id == id {
      assert FirstWithId(ts, id, 0);
    } else {
      var k :| 0 <= k < |ts| && ts[k].id == id;
      assert ts[1..][k - 1].id == id;
      FindByIdIsFirst(ts[1..], id);
      var i :| FirstWithId(ts[1..], id, i) && FindById(ts[1..], id) == Some(ts[1..][i]);
      assert FirstWithId(ts, id, i + 1);
    }
  }

  /** With unique ids, the task found is the one task that carries the id. */
  lemma FindByIdUnique(ts: seq<Task>, id: TaskId, k: int)
    requires UniqueIds(ts)
    requires 0 <= k < |ts| && ts[k].id == id
    ensures FindById(ts, id) == Some(ts[k])
  {
  }
}
