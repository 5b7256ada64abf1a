/**
 * The task store: the task list shown by the application, the loading
 * flag and last error around each call to the API client, the selected
 * task ids, and the filter, search, view and sort settings from which
 * the derived views are computed.
 */
module TaskStore {
  import opened TaskTypes
  import opened TaskViews
  import opened TaskAggregates
  import Seqs
  import Text
  import Api = TaskApi

  /** `Partial<filters>`: each of the four filter fields present (it overrides) or absent. */
  datatype FiltersPatch = FiltersPatch(
    status: Option<seq<Status>>,
    priority: Option<seq<Priority>>,
    date: Option<Option<int>>,
    developer: Option<Option<string>>)

  /** `{ ...filters, ...patch }`: the fields present in the patch win. */
  function ApplyFilters(f: Filters, u: FiltersPatch): (r: Filters)
    ensures r.status == (if u.status.Some? then u.status.value else f.status)
    ensures r.priority == (if u.priority.Some? then u.priority.value else f.priority)
    ensures r.date == (if u.date.Some? then u.date.value else f.date)
    ensures r.developer == (if u.developer.Some? then u.developer.value else f.developer)
  {
    Filters(
      if u.status.Some? then u.status.value else f.status,
      if u.priority.Some? then u.priority.value else f.priority,
      if u.date.Some? then u.date.value else f.date,
      if u.developer.Some? then u.developer.value else f.developer)
  }

  /** Applying the same filter patch twice is applying it once. */
  lemma ApplyFiltersIdempotent(f: Filters, u: FiltersPatch)
    ensures ApplyFilters(ApplyFilters(f, u), u) == ApplyFilters(f, u)
  {
  }

  /** A patch naming every field replaces the filters outright. */
  lemma ApplyFiltersFull(f: Filters, g: Filters)
    ensures ApplyFilters(f, FiltersPatch(Some(g.status), Some(g.priority), Some(g.date), Some(g.developer))) == g
  {
  }

  /**
   * With no filter set, a task is kept exactly when it belongs to the
   * active view and matches the search query.
   */
  lemma NoFiltersKeep(t: Task, v: ViewState, now: int)
    requires v.filters == NoFilters
    ensures Keep(t, v, now) <==> PassesView(t, v.activeView, now) && PassesSearch(t, v.searchQuery)
  {
  }

  /**
   * With no filter, the "all" view and a blank query, the derived list
   * holds every task, each as often as in the store.
   */
  lemma {:induction false} EverythingShown(tasks: seq<Task>, v: ViewState, now: int)
    requires v.filters == NoFilters && v.activeView == All
    requires Text.AllWhitespace(v.searchQuery)
    ensures multiset(FilteredTasks(tasks, v, now)) == multiset(tasks)
  {
    Text.TrimEmptyIff(v.searchQuery);
    var r := FilteredTasks(tasks, v, now);
    assert forall t :: multiset(r)[t] == multiset(tasks)[t];
  }

  /** After `addTask`, looking the new task up by its id finds it. */
  lemma AddedTaskFound(task: Task, stamp: string, s: seq<Task>)
    ensures Api.WithId(task, stamp).id.Some?
    ensures TaskById([Api.WithId(task, stamp)] + s, Api.WithId(task, stamp).id.value) == Some(Api.WithId(task, stamp))
  {
    var t := Api.WithId(task, stamp);
    assert ([t] + s)[0] == t;
  }

  /**
   * `setSortOption`'s mapping of a column name: "date" and "dueDate" sort
   * by due date, "priority" by priority, and any other name falls back
   * to due date; it never selects the creation order.
   */
  function SortForField(field: string): (r: SortOption)
    ensures r == ByPriority <==> field == "priority"
    ensures r == ByDueDate <==> field != "priority"
    ensures r != ByCreatedAt
  {
    if field == "date" || field == "dueDate" then ByDueDate
    else if field == "priority" then ByPriority
    else ByDueDate
  }

  /** No id is selected twice. */
  ghost predicate NoDup(s: seq<string>) {
    forall x :: multiset(s)[x] <= 1
  }

  /** `indexOf`: the first position of `id`, or -1. */
  function IndexOf(s: seq<string>, id: string): (r: int)
    ensures -1 <= r < |s|
    ensures r == -1 <==> id !in s
    ensures r >= 0 ==> s[r] == id && id !in s[..r]
    decreases |s|
  {
    if s == [] then -1
    else if s[0] == id then 0
    else
      var k := IndexOf(s[1..], id);
      if k == -1 then -1
      else
        assert s[..k + 1] == [s[0]] + s[1..][..k];
        k + 1
  }

  /** The selection after `toggleTaskSelection`: `push` when absent, `splice` of the first occurrence when present. */
  function Toggled(s: seq<string>, id: string): (r: seq<string>)
    ensures id !in s ==> r == s + [id]
    ensures id in s ==> multiset(r) == multiset(s) - multiset{id}
    ensures id in s ==> 0 <= IndexOf(s, id) < |s| && r == s[..IndexOf(s, id)] + s[IndexOf(s, id) + 1..]
  {
    var i := IndexOf(s, id);
    if i == -1 then s + [id]
    else
      assert s == s[..i] + [id] + s[i + 1..];
      s[..i] + s[i + 1..]
  }

  /** Toggling keeps a selection free of repeats. */
  lemma ToggleNoDup(s: seq<string>, id: string)
    requires NoDup(s)
    ensures NoDup(Toggled(s, id))
  {
    var r := Toggled(s, id);
    if id !in s {
      assert multiset(r) == multiset(s) + multiset{id};
      forall x
        ensures multiset(r)[x] <= 1
      {
        if x == id {
          assert multiset(s)[x] == 0;
        }
      }
    }
  }

  /** Toggling flips exactly the toggled id in a selection without repeats. */
  lemma ToggleFlips(s: seq<string>, id: string)
    requires NoDup(s)
    ensures forall x :: x in Toggled(s, id) <==> (x in s <==> x != id)
  {
    var r := Toggled(s, id);
    if id in s {
      assert multiset(s)[id] == 1;
      forall x
        ensures x in r <==> (x in s <==> x != id)
      {
        assert x in r <==> multiset(r)[x] > 0;
        assert x in s <==> multiset(s)[x] > 0;
      }
    }
  }

  /** Removing an id from a selection without repeats leaves one without repeats. */
  lemma UnselectNoDup(s: seq<string>, id: string)
    requires NoDup(s)
    ensures NoDup(Unselect(s, id))
  {
    UnselectCounts(s, id);
  }

  /** Toggling an unselected id twice restores the selection. */
  lemma ToggleTwice(s: seq<string>, id: string)
    requires id !in s
    ensures Toggled(Toggled(s, id), id) == s
  {
    var t := s + [id];
    assert IndexOf(t, id) == |s| by {
      assert t[|s|] == id && t[..|s|] == s;
    }
    assert t[..|s|] == s;
  }

  /** The test `id !== taskId`. */
  function NotId(id: string): string -> bool {
    (x: string) => x != id
  }

  /** `selectedTasks.filter(id => id !== taskId)`. */
  function Unselect(s: seq<string>, id: string): (r: seq<string>)
    ensures id !in r
    ensures Seqs.IsSubsequence(r, s)
  {
    Seqs.Filter(s, NotId(id))
  }

  /** Every other id keeps its multiplicity; the removed id is gone. */
  lemma UnselectCounts(s: seq<string>, id: string)
    ensures forall x :: multiset(Unselect(s, id))[x] == if x == id then 0 else multiset(s)[x]
  {
    Seqs.FilterMultiset(s, NotId(id));
  }

  /** The Pinia store: its state fields and its actions. */
  class TaskStore {
    const api: Api.TaskApi
    var tasks: seq<Task>
    var loading: bool
    var error: Option<ApiError>
    var selectedTasks: seq<string>
    var filters: Filters
    var searchQuery: string
    var activeView: ActiveView
    var sort: SortOption
    var sortDirection: SortDirection
    var dataFetched: bool

    /** The initial state: no tasks, no error, no selection, no filter, due date ascending. */
    constructor (api: Api.TaskApi)
      ensures this.api == api
      ensures tasks == [] && !loading && error == None && selectedTasks == []
      ensures filters == NoFilters && searchQuery == "" && activeView == All
      ensures sort == ByDueDate && sortDirection == Asc && !dataFetched
    {
      this.api := api;
      tasks := [];
      loading := false;
      error := None;
      selectedTasks := [];
      filters := NoFilters;
      searchQuery := "";
      activeView := All;
      sort := ByDueDate;
      sortDirection := Asc;
      dataFetched := false;
    }

    /** The settings the derived views are computed from. */
    function View(): ViewState
      reads this
    {
      ViewState(filters, searchQuery, activeView, sort, sortDirection)
    }

    /** The store's list mirrors the client's cache. */
    predicate Synced()
      reads this, api
    {
      tasks == api.cache
    }

    /** The task list, the bookkeeping flags and the selection are as they were. */
    twostate predicate DataUnchanged()
      reads this
    {
      tasks == old(tasks) && loading == old(loading) && error == old(error)
      && selectedTasks == old(selectedTasks) && dataFetched == old(dataFetched)
    }

    /**
     * `fetchTasks`: does nothing once data has been fetched; otherwise asks
     * the client, takes its list and marks the data fetched, or records
     * the error and leaves the list alone. The error is not re-thrown.
     */
    method FetchTasks(outcome: Api.FetchOutcome, stampAt: nat -> string)
      modifies this, api
      ensures old(dataFetched) ==> DataUnchanged() && api.cache == old(api.cache)
      ensures !old(dataFetched) ==>
                var r := Api.FetchResult(old(api.cache), outcome, stampAt);
                !loading
                && (r.Ok? ==> tasks == r.value && dataFetched && error == None && api.cache == r.value)
                && (r.Err? ==> tasks == old(tasks) && !dataFetched && error == Some(r.error)
                               && api.cache == old(api.cache))
      ensures old(Synced()) ==> Synced()
      ensures selectedTasks == old(selectedTasks) && View() == old(View())
    {
      if dataFetched {
        return;
      }
      loading := true;
      error := None;
      var r := api.FetchTasks(outcome, stampAt);
      if r.Ok? {
        tasks := r.value;
        dataFetched := true;
      } else {
        error := Some(r.error);
      }
      loading := false;
    }

    /**
     * `addTask`: the client gives the task an id if it lacks one and the
     * result goes to the front of the list.
     */
    method AddTask(task: Task, stamp: string)
      modifies this, api
      ensures tasks == [Api.WithId(task, stamp)] + old(tasks)
      ensures api.cache == [Api.WithId(task, stamp)] + old(api.cache)
      ensures !loading && error == None
      ensures old(Synced()) ==> Synced()
      ensures selectedTasks == old(selectedTasks) && dataFetched == old(dataFetched) && View() == old(View())
    {
      loading := true;
      error := None;
      var newTask := api.CreateTask(task, stamp);
      tasks := [newTask] + tasks;
      loading := false;
    }

    /**
     * `updateTask`: on success the first task with the same id in the
     * list becomes the client's answer; a failure is recorded in `error`
     * and returned to the caller.
     */
    method UpdateTask(task: Task) returns (r: Result<Task>)
      modifies this, api
      ensures r == (if !HasId(task) then Err(UpdateIdRequired)
                    else if Api.IndexOfId(old(api.cache), task.id.value).None? then Err(NotFound(task.id.value))
                    else Ok(task))
      ensures tasks == if r.Ok? then Api.ReplaceFirst(old(tasks), task.id.value, task) else old(tasks)
      ensures api.cache == if r.Ok? then Api.ReplaceFirst(old(api.cache), task.id.value, task) else old(api.cache)
      ensures error == if r.Err? then Some(r.error) else None
      ensures !loading
      ensures old(Synced()) ==> Synced()
      ensures selectedTasks == old(selectedTasks) && dataFetched == old(dataFetched) && View() == old(View())
    {
      loading := true;
      error := None;
      r := api.UpdateTask(task);
      if r.Ok? {
        var index := Api.IndexOfId(tasks, task.id.value);
        if index.Some? {
          tasks := tasks[index.value := r.value];
        }
      } else {
        error := Some(r.error);
      }
      loading := false;
    }

    /**
     * `removeTask`: on success every task with the id leaves the list and
     * the id leaves the selection; a failure is recorded in `error` and
     * returned to the caller.
     */
    method RemoveTask(taskId: string) returns (r: Result<()>)
      modifies this, api
      ensures r.Err? <==> Api.IndexOfId(old(api.cache), taskId).None?
      ensures r.Err? ==> r.error == NotFound(taskId) && error == Some(r.error)
      ensures r.Ok? ==> error == None
      ensures tasks == if r.Ok? then Api.RemoveId(old(tasks), taskId) else old(tasks)
      ensures api.cache == if r.Ok? then Api.RemoveId(old(api.cache), taskId) else old(api.cache)
      ensures selectedTasks == if r.Ok? then Unselect(old(selectedTasks), taskId) else old(selectedTasks)
      ensures !loading
      ensures old(Synced()) ==> Synced()
      ensures dataFetched == old(dataFetched) && View() == old(View())
    {
      loading := true;
      error := None;
      r := api.DeleteTask(taskId);
      if r.Ok? {
        tasks := Api.RemoveId(tasks, taskId);
        selectedTasks := Unselect(selectedTasks, taskId);
      } else {
        error := Some(r.error);
      }
      loading := false;
    }

    /**
     * `patchTask`: on success the first task with the id in the list
     * becomes the merged task the client returns; a failure is recorded
     * in `error` and returned to the caller.
     */
    method PatchTask(taskId: string, updates: Api.TaskPatch) returns (r: Result<Task>)
      modifies this, api
      ensures r == (if taskId == "" then Err(PatchIdRequired)
                    else match Api.IndexOfId(old(api.cache), taskId)
                      case None => Err(NotFound(taskId))
                      case Some(i) => Ok(Api.Merge(old(api.cache)[i], updates)))
      ensures tasks == if r.Ok? then Api.ReplaceFirst(old(tasks), taskId, r.value) else old(tasks)
      ensures api.cache == if r.Ok? then Api.ReplaceFirst(old(api.cache), taskId, r.value) else old(api.cache)
      ensures error == if r.Err? then Some(r.error) else None
      ensures !loading
      ensures old(Synced()) ==> Synced()
      ensures selectedTasks == old(selectedTasks) && dataFetched == old(dataFetched) && View() == old(View())
    {
      loading := true;
      error := None;
      r := api.PatchTask(taskId, updates);
      if r.Ok? {
        var index := Api.IndexOfId(tasks, taskId);
        if index.Some? {
          tasks := tasks[index.value := r.value];
        }
      } else {
        error := Some(r.error);
      }
      loading := false;
    }

    /** `setFilterDeveloper`: a non-empty name sets the developer filter, an empty one clears it. */
    method SetFilterDeveloper(developer: string)
      modifies this
      ensures filters == old(filters).(developer := if developer == "" then None else Some(developer))
      ensures searchQuery == old(searchQuery) && activeView == old(activeView)
      ensures sort == old(sort) && sortDirection == old(sortDirection)
      ensures DataUnchanged()
    {
      if developer != "" {
        filters := filters.(developer := Some(developer));
      } else {
        filters := Filters(filters.status, filters.priority, filters.date, None);
      }
    }

    /** `setFilters`: the fields present in the patch replace the current ones. */
    method SetFilters(patch: FiltersPatch)
      modifies this
      ensures filters == ApplyFilters(old(filters), patch)
      ensures searchQuery == old(searchQuery) && activeView == old(activeView)
      ensures sort == old(sort) && sortDirection == old(sortDirection)
      ensures DataUnchanged()
    {
      filters := ApplyFilters(filters, patch);
    }

    /** `clearFilters`: no status, priority, date or developer filter. */
    method ClearFilters()
      modifies this
      ensures filters == NoFilters
      ensures searchQuery == old(searchQuery) && activeView == old(activeView)
      ensures sort == old(sort) && sortDirection == old(sortDirection)
      ensures DataUnchanged()
    {
      filters := Filters([], [], None, None);
    }

    /** `setSearchQuery`. */
    method SetSearchQuery(query: string)
      modifies this
      ensures View() == old(View()).(searchQuery := query)
      ensures DataUnchanged()
    {
      searchQuery := query;
    }

    /** `setActiveView`. */
    method SetActiveView(view: ActiveView)
      modifies this
      ensures View() == old(View()).(activeView := view)
      ensures DataUnchanged()
    {
      activeView := view;
    }

    /** `setSort`. */
    method SetSort(option: SortOption, direction: SortDirection := Asc)
      modifies this
      ensures View() == old(View()).(sort := option, direction := direction)
      ensures DataUnchanged()
    {
      sort := option;
      sortDirection := direction;
    }

    /** `setSortOption`: maps a column name to a sort option, then sets the direction. */
    method SetSortOption(field: string, direction: SortDirection := Asc)
      modifies this
      ensures sort == (if field == "priority" then ByPriority else ByDueDate)
      ensures View() == old(View()).(sort := SortForField(field), direction := direction)
      ensures DataUnchanged()
    {
      if field == "date" || field == "dueDate" {
        sort := ByDueDate;
      } else if field == "priority" {
        sort := ByPriority;
      } else {
        sort := ByDueDate;
      }
      sortDirection := direction;
    }

    /** `clearSort`: back to due date, ascending. */
    method ClearSort()
      modifies this
      ensures View() == old(View()).(sort := ByDueDate, direction := Asc)
      ensures DataUnchanged()
    {
      sort := ByDueDate;
      sortDirection := Asc;
    }

    /** `toggleTaskSelection`: selects an unselected id, unselects a selected one. */
    method ToggleTaskSelection(taskId: string)
      modifies this
      ensures selectedTasks == Toggled(old(selectedTasks), taskId)
      ensures old(NoDup(selectedTasks)) ==>
                NoDup(selectedTasks)
                && forall x :: x in selectedTasks <==> (x in old(selectedTasks) <==> x != taskId)
      ensures tasks == old(tasks) && loading == old(loading) && error == old(error)
      ensures dataFetched == old(dataFetched) && View() == old(View())
    {
      if NoDup(selectedTasks) {
        ToggleNoDup(selectedTasks, taskId);
        ToggleFlips(selectedTasks, taskId);
      }
      var index := IndexOf(selectedTasks, taskId);
      if index == -1 {
        selectedTasks := selectedTasks + [taskId];
      } else {
        selectedTasks := selectedTasks[..index] + selectedTasks[index + 1..];
      }
    }

    /** `clearTaskSelection`. */
    method ClearTaskSelection()
      modifies this
      ensures selectedTasks == []
      ensures tasks == old(tasks) && loading == old(loading) && error == old(error)
      ensures dataFetched == old(dataFetched) && View() == old(View())
    {
      selectedTasks := [];
    }
  }
}
