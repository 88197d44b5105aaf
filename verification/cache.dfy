/** The updates the dashboard applies to its local copy of the task list once the
    store has answered, and the bodies it sends to the store. */
module Cache {
  import opened Seqs
  import opened Tasks
  import opened View

  /** After a create: the store's record is added at the end of the cache. */
  function Append(ts: seq<Task>, created: Task): (r: seq<Task>)
    ensures |r| == |ts| + 1
    ensures r[..|ts|] == ts
    ensures r[|ts|] == created
  {
    ts + [created]
  }

  /** After an edit or a toggle: every task with `id` becomes the store's record,
      and every other task stays where it is. */
  function ReplaceById(ts: seq<Task>, id: TaskId, data: Task): (r: seq<Task>)
    ensures |r| == |ts|
    ensures forall i :: 0 <= i < |ts| && ts[i].id != id ==> r[i] == ts[i]
    ensures forall i :: 0 <= i < |ts| && ts[i].id == id ==> r[i] == data
  {
    if |ts| == 0 then []
    else [if ts[0].id == id then data else ts[0]] + ReplaceById(ts[1..], id, data)
  }

  function IdDiffers(id: TaskId): Task -> bool {
    (t: Task) => t.id != id
  }

  /** After a delete: the tasks with `id` are filtered out of the cache. */
  function RemoveById(ts: seq<Task>, id: TaskId): (r: seq<Task>)
    ensures !HasId(r, id)
    ensures forall t :: t in r ==> t in ts
  {
    Filter(ts, IdDiffers(id))
  }

  /** A replace for an id no task carries leaves the cache as it was. */
  lemma ReplaceAbsentIsIdentity(ts: seq<Task>, id: TaskId, data: Task)
    requires !HasId(ts, id)
    ensures ReplaceById(ts, id, data) == ts
  {
  }

  /** Replacing with a record that keeps the id keeps ids unique. */
  lemma ReplaceKeepsUniqueIds(ts: seq<Task>, id: TaskId, data: Task)
    requires UniqueIds(ts)
    requires data.id == id
    ensures UniqueIds(ReplaceById(ts, id, data))
  {
  }

  /** Appending a record with a fresh id keeps ids unique. */
  lemma AppendKeepsUniqueIds(ts: seq<Task>, created: Task)
    requires UniqueIds(ts)
    requires !HasId(ts, created.id)
    ensures UniqueIds(Append(ts, created))
  {
  }

  /** Delete keeps every other task, as often as before, in its original order. */
  lemma RemoveKeepsOthers(ts: seq<Task>, id: TaskId)
    ensures forall t: Task :: t.id != id ==> multiset(RemoveById(ts, id))[t] == multiset(ts)[t]
    ensures IsSubsequence(RemoveById(ts, id), ts)
  {
    FilterCount(ts, IdDiffers(id));
    FilterIsSubsequence(ts, IdDiffers(id));
  }

  /** Deleting an id no task carries changes nothing; deleting twice is deleting once. */
  lemma RemoveIdempotent(ts: seq<Task>, id: TaskId)
    ensures !HasId(ts, id) ==> RemoveById(ts, id) == ts
    ensures RemoveById(RemoveById(ts, id), id) == RemoveById(ts, id)
  {
    FilterKeepsAll(RemoveById(ts, id), IdDiffers(id));
    if !HasId(ts, id) {
      FilterKeepsAll(ts, IdDiffers(id));
    }
  }

  /** With unique ids, deleting a present id shrinks the cache by exactly one. */
  lemma {:induction false} RemoveUniqueShrinksByOne(ts: seq<Task>, id: TaskId)
    requires UniqueIds(ts)
    requires HasId(ts, id)
    ensures |RemoveById(ts, id)| == |ts| - 1
  {
    assert UniqueIds(ts[1..]) by {
      forall i, j | 0 <= i < |ts| - 1 && 0 <= j < |ts| - 1 && ts[1..][i].id == ts[1..][j].id
        ensures i == j
      {
        assert ts[i + 1].id == ts[j + 1].id;
      }
    }
    if ts[0].id == id {
      forall t | t in ts[1..]
        ensures IdDiffers(id)(t)
      {
        var k :| 0 <= k < |ts[1..]| && ts[1..][k] == t;
        assert ts[k + 1] == t;
      }
      FilterKeepsAll(ts[1..], IdDiffers(id));
    } else {
      var k :| 0 <= k < |ts| && ts[k].id == id;
      assert ts[1..][k - 1].id == id;
      RemoveUniqueShrinksByOne(ts[1..], id);
    }
  }

  /** Filtering, and so deleting, keeps ids unique. */
  lemma {:induction false} FilterKeepsUniqueIds(ts: seq<Task>, p: Task -> bool)
    requires UniqueIds(ts)
    ensures UniqueIds(Filter(ts, p))
  {
    if |ts| > 0 {
      assert UniqueIds(ts[1..]) by {
        forall i, j | 0 <= i < |ts| - 1 && 0 <= j < |ts| - 1 && ts[1..][i].id == ts[1..][j].id
          ensures i == j
        {
          assert ts[i + 1].id == ts[j + 1].id;
        }
      }
      FilterKeepsUniqueIds(ts[1..], p);
      if p(ts[0]) {
        var rest := Filter(ts[1..], p);
        forall t | t in rest
          ensures t.id != ts[0].id
        {
          var k :| 0 <= k < |ts[1..]| && ts[1..][k] == t;
          assert ts[k + 1] == t;
        }
        var r := Filter(ts, p);
        forall i, j | 0 <= i < |r| && 0 <= j < |r| && r[i].id == r[j].id
          ensures i == j
        {
          if i > 0 && j > 0 {
            assert r[i] == rest[i - 1] && r[j] == rest[j - 1];
          }
        }
      }
    }
  }

  /** The view after a create is the old view, followed by the new record when it is visible. */
  lemma AppendView(ts: seq<Task>, created: Task, f: StatusFilter, search: string)
    ensures FilteredTasks(Append(ts, created), f, search)
            == FilteredTasks(ts, f, search) + (if Visible(created, f, search) then [created] else [])
  {
    FilteredTasksSinglePass(Append(ts, created), f, search);
    FilteredTasksSinglePass(ts, f, search);
    FilterConcat(ts, [created], VisiblePred(f, search));
  }

  /** The view after a delete is the old view with that id removed. */
  lemma RemoveView(ts: seq<Task>, id: TaskId, f: StatusFilter, search: string)
    ensures FilteredTasks(RemoveById(ts, id), f, search) == RemoveById(FilteredTasks(ts, f, search), id)
  {
    var both: Task -> bool := (t: Task) => t.id != id && Visible(t, f, search);
    FilteredTasksSinglePass(RemoveById(ts, id), f, search);
    FilteredTasksSinglePass(ts, f, search);
    FilterCompose(ts, IdDiffers(id), VisiblePred(f, search), both);
    FilterCompose(ts, VisiblePred(f, search), IdDiffers(id), both);
  }

  /** The record the completion button sends: the cached task with its flag flipped. */
  function Toggled(t: Task): (r: Task)
    ensures r.completed != t.completed
    ensures r.id == t.id && r.title == t.title && r.description == t.description
    ensures r.dueDate == t.dueDate && r.priority == t.priority
  {
    t.(completed := !t.completed)
  }

  /** Toggling twice gives back the task. */
  lemma ToggledInvolution(t: Task)
    ensures Toggled(Toggled(t)) == t
  {
  }

  /** The record the completion button sends for `id`, or `None` when the lookup
      finds nothing and reading its flag throws. */
  function ToggleRecord(ts: seq<Task>, id: TaskId): (r: Option<Task>)
    ensures r.None? <==> !HasId(ts, id)
    ensures r.Some? ==> exists i :: FirstWithId(ts, id, i) && r.value == Toggled(ts[i])
  {
    match FindById(ts, id)
    case None => None
    case Some(t) => FindByIdIsFirst(ts, id); Some(Toggled(t))
  }

  /** The fields the form validates and returns. */
  datatype FormValues = FormValues(title: string, description: string, dueDate: string, priority: Priority)

  /** The body of a create or edit request: the form's fields plus `completed`. */
  datatype Payload = Payload(title: string, description: string, dueDate: string, priority: Priority, completed: bool)

  /** The body the Save button sends: the form's fields, with the edited task's flag,
      or false when no task is being edited. */
  function SubmitPayload(values: FormValues, editing: Option<Task>): (p: Payload)
    ensures p.completed == (editing.Some? && editing.value.completed)
    ensures editing.None? ==> !p.completed
    ensures p.title == values.title && p.description == values.description
    ensures p.dueDate == values.dueDate && p.priority == values.priority
  {
    var completed := match editing
      case Some(e) => e.completed
      case None => false;
    Payload(values.title, values.description, values.dueDate, values.priority, completed)
  }

  /** The form as it is filled in when editing `t` (the Edit button fills the form from the row). */
  function ValuesOf(t: Task): FormValues {
    FormValues(t.title, t.description, t.dueDate, t.priority)
  }

  /** The record a store holds under `id` after writing every field of `p`. */
  function StoredAs(id: TaskId, p: Payload): Task {
    Task(id, p.title, p.description, p.dueDate, p.priority, p.completed)
  }

  /** Saving the edit form unchanged sends exactly the task's own fields back. */
  lemma UnchangedEditRoundTrip(t: Task)
    ensures StoredAs(t.id, SubmitPayload(ValuesOf(t), Some(t))) == t
  {
  }
}
