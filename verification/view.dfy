/** The dashboard's derived view: the status filter followed by the case-insensitive
    title search, and the Status column's own filter predicate. */
module View {
  import opened Seqs
  import opened Text
  import opened Tasks

  /** The three choices of the status select. */
  datatype StatusFilter = All | Completed | Pending

  /** The first filter of the view: `Completed` keeps finished tasks, `Pending`
      keeps unfinished ones, `All` keeps everything. */
  predicate MatchesStatus(t: Task, f: StatusFilter) {
    match f
    case Completed => t.completed
    case Pending => !t.completed
    case All => true
  }

  /** The second filter: the lower-cased title contains the lower-cased search text. */
  predicate MatchesSearch(t: Task, search: string) {
    Includes(ToLower(t.title), ToLower(search))
  }

  /** The search ignores letter case, both in the search text and in the title. */
  lemma SearchIgnoresCase(t: Task, t': Task, search: string, search': string)
    requires SameIgnoringCase(t.title, t'.title)
    requires SameIgnoringCase(search, search')
    ensures MatchesSearch(t, search) == MatchesSearch(t', search')
  {
    ToLowerSameIff(t.title, t'.title);
    ToLowerSameIff(search, search');
  }

  /** A task is shown when it passes both filters. */
  predicate Visible(t: Task, f: StatusFilter, search: string) {
    MatchesStatus(t, f) && MatchesSearch(t, search)
  }

  function StatusPred(f: StatusFilter): Task -> bool {
    t => MatchesStatus(t, f)
  }

  function SearchPred(search: string): Task -> bool {
    t => MatchesSearch(t, search)
  }

  function VisiblePred(f: StatusFilter, search: string): Task -> bool {
    t => Visible(t, f, search)
  }

  /** The cache after the status filter. */
  function StatusFiltered(ts: seq<Task>, f: StatusFilter): (r: seq<Task>)
    ensures forall t :: t in r ==> t in ts && MatchesStatus(t, f)
  {
    Filter(ts, StatusPred(f))
  }

  /** The table's rows: the status filter, then the title search. */
  function FilteredTasks(ts: seq<Task>, f: StatusFilter, search: string): (r: seq<Task>)
    ensures forall i :: 0 <= i < |r| ==> MatchesStatus(r[i], f)
    ensures forall i :: 0 <= i < |r| ==> Includes(ToLower(r[i].title), ToLower(search))
  {
    Filter(StatusFiltered(ts, f), SearchPred(search))
  }

  /** The two filters in a row are one pass keeping exactly the visible tasks. */
  lemma FilteredTasksSinglePass(ts: seq<Task>, f: StatusFilter, search: string)
    ensures FilteredTasks(ts, f, search) == Filter(ts, VisiblePred(f, search))
  {
  }

  /** The view holds every visible task as often as the cache does, and nothing else. */
  lemma FilteredTasksExact(ts: seq<Task>, f: StatusFilter, search: string)
    ensures forall t :: multiset(FilteredTasks(ts, f, search))[t]
                        == if Visible(t, f, search) then multiset(ts)[t] else 0
  {
    FilteredTasksSinglePass(ts, f, search);
    FilterCount(ts, VisiblePred(f, search));
  }

  /** The view keeps the cache's order. */
  lemma FilteredTasksIsSubsequence(ts: seq<Task>, f: StatusFilter, search: string)
    ensures IsSubsequence(FilteredTasks(ts, f, search), ts)
  {
    FilteredTasksSinglePass(ts, f, search);
    FilterIsSubsequence(ts, VisiblePred(f, search));
  }

  /** `All` drops nothing on status grounds. */
  lemma AllKeepsEverything(ts: seq<Task>)
    ensures StatusFiltered(ts, All) == ts
  {
    FilterKeepsAll(ts, StatusPred(All));
  }

  /** With an empty search text the view is exactly the status-filtered cache. */
  lemma EmptySearchIsStatusView(ts: seq<Task>, f: StatusFilter)
    ensures FilteredTasks(ts, f, "") == StatusFiltered(ts, f)
  {
    var s := StatusFiltered(ts, f);
    forall t | t in s
      ensures SearchPred("")(t)
    {
      IncludesEmpty(ToLower(t.title));
    }
    FilterKeepsAll(s, SearchPred(""));
  }

  /** For one search text, the `Completed` and `Pending` views split the `All` view:
      together they hold each of its tasks exactly as often, and share none. */
  lemma StatusViewsPartition(ts: seq<Task>, search: string)
    ensures multiset(FilteredTasks(ts, Completed, search)) + multiset(FilteredTasks(ts, Pending, search))
            == multiset(FilteredTasks(ts, All, search))
    ensures |FilteredTasks(ts, Completed, search)| + |FilteredTasks(ts, Pending, search)|
            == |FilteredTasks(ts, All, search)|
    ensures forall t :: t in FilteredTasks(ts, Completed, search) ==> t !in FilteredTasks(ts, Pending, search)
  {
    var shown := Filter(ts, SearchPred(search));
    AllKeepsEverything(ts);
    FilterCompose(ts, SearchPred(search), StatusPred(Completed), VisiblePred(Completed, search));
    FilterCompose(ts, StatusPred(Completed), SearchPred(search), VisiblePred(Completed, search));
    FilterCompose(ts, SearchPred(search), StatusPred(Pending), VisiblePred(Pending, search));
    FilterCompose(ts, StatusPred(Pending), SearchPred(search), VisiblePred(Pending, search));
    FilterPartition(shown, StatusPred(Completed), StatusPred(Pending));
  }

  /** The Status column's filter: the record's flag equals the chosen value. */
  function StatusColumnFilter(value: bool, record: Task): (keep: bool)
    ensures keep <==> MatchesStatus(record, if value then Completed else Pending)
  {
    record.completed == value
  }

  /** The column's two choices select the same tasks as the status select's
      `Completed` and `Pending`. */
  lemma StatusColumnAgreesWithSelect(ts: seq<Task>)
    ensures Filter(ts, v => StatusColumnFilter(true, v)) == StatusFiltered(ts, Completed)
    ensures Filter(ts, v => StatusColumnFilter(false, v)) == StatusFiltered(ts, Pending)
  {
    FilterExt(ts, v => StatusColumnFilter(true, v), StatusPred(Completed));
    FilterExt(ts, v => StatusColumnFilter(false, v), StatusPred(Pending));
  }
}
