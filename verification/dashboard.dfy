/** The dashboard's handlers as transitions of an explicit state. Every network call
    is a parameter: the store's answer to the request the handler builds. A failed
    call is caught and logged, so it leaves the state as it was. */
module Dashboard {
  import opened Seqs
  import opened Tasks
  import opened View
  import opened Cache

  /** The outcome of one HTTP call. */
  datatype Response<T> = Ok(data: T) | Failed

  /** The requests that change a task. */
  datatype Request =
    | Post(body: Payload)
    | Put(id: TaskId, body: Payload)
    | PutRecord(id: TaskId, record: Task)

  /** The client-side state: the cached list, the status select, the search text,
      the task being edited and whether the form is open. */
  datatype State = State(
    tasks: seq<Task>,
    filter: StatusFilter,
    search: string,
    editing: Option<Task>,
    modalOpen: bool)

  /** The table's data source. */
  function Shown(st: State): seq<Task> {
    FilteredTasks(st.tasks, st.filter, st.search)
  }

  /** The Edit button on a row: the form is filled from the record and opened. */
  function OpenEdit(st: State, record: Task): (st': State)
    ensures st'.editing == Some(record) && st'.modalOpen
    ensures st'.tasks == st.tasks && st'.filter == st.filter && st'.search == st.search
  {
    st.(editing := Some(record), modalOpen := true)
  }

  /** The Add Task button: nothing is being edited and the form opens empty. */
  function OpenAdd(st: State): (st': State)
    ensures st'.editing.None? && st'.modalOpen
    ensures st'.tasks == st.tasks && st'.filter == st.filter && st'.search == st.search
  {
    st.(editing := None, modalOpen := true)
  }

  /** The request the Save button issues: an update of the edited task, or a create. */
  function SubmitRequest(editing: Option<Task>, values: FormValues): (r: Request)
    ensures r.Put? <==> editing.Some?
    ensures r.Post? <==> editing.None?
    ensures r.Put? ==> r.id == editing.value.id
    ensures !r.PutRecord? && r.body == SubmitPayload(values, editing)
  {
    var payload := SubmitPayload(values, editing);
    match editing
    case Some(e) => Put(e.id, payload)
    case None => Post(payload)
  }

  /** Saving the form. `values` is `None` when validation rejects the form, and then no
      request is sent; `server` answers the request that is sent. On success a create
      appends the answer, and an edit puts the answer in place of the edited task. */
  function Submit(st: State, values: Option<FormValues>, server: Request -> Response<Task>): (st': State)
    ensures values.None? ==> st' == st
    ensures values.Some? && server(SubmitRequest(st.editing, values.value)).Failed? ==> st' == st
    ensures st'.filter == st.filter && st'.search == st.search
    ensures values.Some? && server(SubmitRequest(st.editing, values.value)).Ok? ==> !st'.modalOpen && st'.editing.None?
    ensures st.editing.Some? ==> |st'.tasks| == |st.tasks|
    ensures values.Some? && st.editing.None? && server(SubmitRequest(st.editing, values.value)).Ok? ==>
      var data := server(SubmitRequest(st.editing, values.value)).data;
      && |st'.tasks| == |st.tasks| + 1
      && st'.tasks[..|st.tasks|] == st.tasks
      && st'.tasks[|st.tasks|] == data
    ensures values.Some? && st.editing.Some? && server(SubmitRequest(st.editing, values.value)).Ok? ==>
      var data := server(SubmitRequest(st.editing, values.value)).data;
      && (forall i :: 0 <= i < |st.tasks| && st.tasks[i].id == st.editing.value.id ==> st'.tasks[i] == data)
      && (forall i :: 0 <= i < |st.tasks| && st.tasks[i].id != st.editing.value.id ==> st'.tasks[i] == st.tasks[i])
  {
    match values
    case None => st
    case Some(v) =>
      match server(SubmitRequest(st.editing, v))
      case Failed => st
      case Ok(data) =>
        var tasks := match st.editing
          case Some(e) => ReplaceById(st.tasks, e.id, data)
          case None => Append(st.tasks, data);
        st.(tasks := tasks, editing := None, modalOpen := false)
  }

  /** The Delete button: once the store confirms, the id is filtered out of the cache. */
  function Delete(st: State, id: TaskId, deleted: bool): (st': State)
    ensures !deleted ==> st' == st
    ensures deleted ==> !HasId(st'.tasks, id) && forall t :: t in st'.tasks ==> t in st.tasks
    ensures deleted ==> forall t: Task :: t.id != id ==> multiset(st'.tasks)[t] == multiset(st.tasks)[t]
    ensures deleted ==> IsSubsequence(st'.tasks, st.tasks)
    ensures st' == st.(tasks := st'.tasks)
  {
    RemoveKeepsOthers(st.tasks, id);
    if deleted then st.(tasks := RemoveById(st.tasks, id)) else st
  }

  /** The completion button: the cached task is sent back with its flag flipped and the
      store's answer replaces it. A missing id throws before any request is sent. */
  function Complete(st: State, id: TaskId, server: Request -> Response<Task>): (st': State)
    ensures !HasId(st.tasks, id) ==> st' == st
    ensures |st'.tasks| == |st.tasks|
    ensures HasId(st.tasks, id) && server(PutRecord(id, ToggleRecord(st.tasks, id).value)).Failed? ==> st' == st
    ensures HasId(st.tasks, id) && server(PutRecord(id, ToggleRecord(st.tasks, id).value)).Ok? ==>
      forall i :: 0 <= i < |st.tasks| && st.tasks[i].id == id ==>
        st'.tasks[i] == server(PutRecord(id, ToggleRecord(st.tasks, id).value)).data
    ensures forall i :: 0 <= i < |st.tasks| && st.tasks[i].id != id ==> st'.tasks[i] == st.tasks[i]
    ensures st' == st.(tasks := st'.tasks)
  {
    match ToggleRecord(st.tasks, id)
    case None => st
    case Some(updated) =>
      match server(PutRecord(id, updated))
      case Failed => st
      case Ok(data) => st.(tasks := ReplaceById(st.tasks, id, data))
  }

  /** The answer of a store that writes every field it is sent and returns the result;
      a create is given `newId` as its id. */
  function Persisted(req: Request, newId: TaskId): Task {
    match req
    case Post(p) => StoredAs(newId, p)
    case Put(id, p) => StoredAs(id, p)
    case PutRecord(_, t) => t
  }

  function EchoStore(newId: TaskId): Request -> Response<Task> {
    req => Ok(Persisted(req, newId))
  }

  /** Against such a store, completing a task flips exactly that task's flag. */
  lemma CompleteFlipsOneTask(st: State, k: int, newId: TaskId)
    requires UniqueIds(st.tasks)
    requires 0 <= k < |st.tasks|
    ensures Complete(st, st.tasks[k].id, EchoStore(newId)).tasks
            == st.tasks[k := Toggled(st.tasks[k])]
  {
  }

  /** Completing the same task twice against such a store restores the cache. */
  lemma CompleteTwiceRestores(st: State, k: int, newId: TaskId)
    requires UniqueIds(st.tasks)
    requires 0 <= k < |st.tasks|
    ensures Complete(Complete(st, st.tasks[k].id, EchoStore(newId)), st.tasks[k].id, EchoStore(newId)) == st
  {
    var id := st.tasks[k].id;
    var st1 := Complete(st, id, EchoStore(newId));
    CompleteFlipsOneTask(st, k, newId);
    ReplaceKeepsUniqueIds(st.tasks, id, Toggled(st.tasks[k]));
    assert UniqueIds(st1.tasks) by {
      assert forall i :: 0 <= i < |st.tasks| ==> st1.tasks[i].id == st.tasks[i].id;
    }
    CompleteFlipsOneTask(st1, k, newId);
    ToggledInvolution(st.tasks[k]);
    assert st1.tasks[k := Toggled(st1.tasks[k])] == st.tasks;
  }

  /** Editing a row and saving keeps the task's completion flag, whatever else the
      form changed, against a store that writes what it is sent. */
  lemma EditKeepsCompletion(st: State, k: int, v: FormValues, newId: TaskId)
    requires 0 <= k < |st.tasks|
    ensures Submit(OpenEdit(st, st.tasks[k]), Some(v), EchoStore(newId)).tasks[k].completed
            == st.tasks[k].completed
  {
  }

  /** Editing a row and saving without changing the form leaves the cache as it was. */
  lemma UnchangedEditIsNoOp(st: State, k: int, newId: TaskId)
    requires UniqueIds(st.tasks)
    requires 0 <= k < |st.tasks|
    ensures Submit(OpenEdit(st, st.tasks[k]), Some(ValuesOf(st.tasks[k])), EchoStore(newId)).tasks
            == st.tasks
  {
  }

  /** A save from the Add Task form appends one pending task with a newId id, keeps
      ids unique, and shows it in the view exactly when it passes the filters. */
  lemma CreateAppendsPendingTask(st: State, v: FormValues, newId: TaskId)
    requires UniqueIds(st.tasks)
    requires !HasId(st.tasks, newId)
    ensures var st' := Submit(OpenAdd(st), Some(v), EchoStore(newId));
      && st'.tasks == st.tasks + [Task(newId, v.title, v.description, v.dueDate, v.priority, false)]
      && UniqueIds(st'.tasks)
      && Shown(st') == Shown(st) + (if Visible(st'.tasks[|st.tasks|], st.filter, st.search)
                                    then [st'.tasks[|st.tasks|]] else [])
  {
    var created := Task(newId, v.title, v.description, v.dueDate, v.priority, false);
    AppendKeepsUniqueIds(st.tasks, created);
    AppendView(st.tasks, created, st.filter, st.search);
  }

  /** A confirmed delete of a present id removes exactly one task when ids are unique,
      removes it from the view, and repeating it changes nothing. */
  lemma DeleteRemovesOne(st: State, id: TaskId)
    requires UniqueIds(st.tasks)
    requires HasId(st.tasks, id)
    ensures |Delete(st, id, true).tasks| == |st.tasks| - 1
    ensures UniqueIds(Delete(st, id, true).tasks)
    ensures Shown(Delete(st, id, true)) == RemoveById(Shown(st), id)
    ensures Delete(Delete(st, id, true), id, true) == Delete(st, id, true)
  {
    RemoveUniqueShrinksByOne(st.tasks, id);
    FilterKeepsUniqueIds(st.tasks, IdDiffers(id));
    RemoveView(st.tasks, id, st.filter, st.search);
    RemoveIdempotent(st.tasks, id);
  }
}
