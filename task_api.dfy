/**
 * The API client: one GET of the whole task list, remembered in a
 * module-wide cache, and create / update / delete / patch operations
 * that act on that cache only, as a stand-in backend.
 */
module TaskApi {
  import opened TaskTypes
  import Seqs

  /**
   * What the one GET produced: a non-OK HTTP status, or a decoded body,
   * which is absent when the body is `null`.
   */
  datatype FetchOutcome = HttpFailure(status: int) | Received(body: Option<ApiResponse>)

  /**
   * `Partial<Task>`: each field either present (it overrides) or absent.
   * A present `date` is itself a due date or none, so a patch with an
   * empty date string is `Some(None)` and clears the due date.
   */
  datatype TaskPatch = TaskPatch(
    title: Option<string>,
    developer: Option<string>,
    priority: Option<Priority>,
    status: Option<Status>,
    kind: Option<TaskType>,
    date: Option<Option<int>>,
    estimatedSP: Option<int>,
    actualSP: Option<int>,
    id: Option<string>)

  /** A patch with no field present. */
  const EmptyPatch := TaskPatch(None, None, None, None, None, None, None, None, None)

  /**
   * The id generated for a task that has none: `task-` followed by the
   * time-and-random stamp, which is supplied by the caller.
   */
  function GeneratedId(stamp: string): (r: string)
    ensures |r| >= 5 && r[..5] == "task-"
  {
    "task-" + stamp
  }

  /** `{ ...task, id: task.id || generated }`. */
  function WithId(t: Task, stamp: string): (r: Task)
    ensures HasId(r)
    ensures HasId(t) ==> r == t
    ensures !HasId(t) ==> r.id == Some(GeneratedId(stamp))
    ensures r == t.(id := r.id)
  {
    if HasId(t) then t else t.(id := Some(GeneratedId(stamp)))
  }

  /** Gives every task of a fetched list an id; `stampAt(i)` stamps the i-th task's new id. */
  function AssignIds(data: seq<Task>, stampAt: nat -> string): (r: seq<Task>)
    ensures |r| == |data|
    ensures forall i :: 0 <= i < |r| ==> HasId(r[i])
    ensures forall i :: 0 <= i < |r| && HasId(data[i]) ==> r[i] == data[i]
    ensures forall i :: 0 <= i < |r| ==> r[i] == data[i].(id := r[i].id)
  {
    var r := seq(|data|, i requires 0 <= i < |data| => WithId(data[i], stampAt(i)));
    assert forall i :: 0 <= i < |r| ==> r[i] == WithId(data[i], stampAt(i));
    r
  }

  /**
   * The answer of `fetchTasks` given the cache and what the GET produced:
   * a non-empty cache answers by itself; otherwise an HTTP failure is an
   * error, a `null` body fails when its `data` is read for the log line,
   * before the format guard, a body without its `data` array is an
   * invalid format, and a list is returned with ids assigned.
   */
  function FetchResult(cache: seq<Task>, outcome: FetchOutcome, stampAt: nat -> string): (r: Result<seq<Task>>)
    ensures |cache| > 0 ==> r == Ok(cache)
    ensures |cache| == 0 && outcome.HttpFailure? ==> r == Err(HttpError(outcome.status))
    ensures |cache| == 0 && outcome.Received? && outcome.body.None? ==> r == Err(NullBody)
    ensures r == Err(InvalidFormat) <==>
              |cache| == 0 && outcome.Received? && outcome.body.Some? && outcome.body.value.data.None?
    ensures |cache| == 0 && outcome.Received? && outcome.body.Some? && outcome.body.value.data.Some? ==> r.Ok?
    ensures |cache| == 0 && r.Ok? ==>
              outcome.Received? && outcome.body.Some? && outcome.body.value.data.Some?
              && |r.value| == |outcome.body.value.data.value|
              && (forall i :: 0 <= i < |r.value| ==> HasId(r.value[i]))
              && (forall i :: 0 <= i < |r.value| && HasId(outcome.body.value.data.value[i])
                    ==> r.value[i] == outcome.body.value.data.value[i])
              && (forall i :: 0 <= i < |r.value|
                    ==> r.value[i] == outcome.body.value.data.value[i].(id := r.value[i].id))
  {
    if |cache| > 0 then Ok(cache)
    else match outcome
      case HttpFailure(status) => Err(HttpError(status))
      case Received(body) =>
        if body.None? then Err(NullBody)
        else if body.value.data.None? then Err(InvalidFormat)
        else Ok(AssignIds(body.value.data.value, stampAt))
  }

  /** The task at `j` is the first one carrying `id`. */
  predicate FirstWithId(s: seq<Task>, id: string, j: int)
    requires 0 <= j < |s|
  {
    s[j].id == Some(id) && forall k :: 0 <= k < j ==> s[k].id != Some(id)
  }

  /** `findIndex(t => t.id === id)`: the first position carrying `id`, if any. */
  function IndexOfId(s: seq<Task>, id: string): (r: Option<nat>)
    ensures r.Some? ==> r.value < |s| && FirstWithId(s, id, r.value)
    ensures r.None? ==> forall j :: 0 <= j < |s| ==> s[j].id != Some(id)
    decreases |s|
  {
    if s == [] then None
    else if s[0].id == Some(id) then Some(0)
    else match IndexOfId(s[1..], id)
      case None => None
      case Some(k) =>
        assert s[k + 1] == s[1..][k];
        Some(k + 1)
  }

  /** `s[findIndex(...)] = t` when some task carries `id`; `s` itself otherwise. */
  function ReplaceFirst(s: seq<Task>, id: string, t: Task): (r: seq<Task>)
    ensures |r| == |s|
    ensures forall j :: 0 <= j < |s| ==> r[j] == if FirstWithId(s, id, j) then t else s[j]
  {
    match IndexOfId(s, id)
    case None => s
    case Some(i) => s[i := t]
  }

  /** The test `t.id !== id`. */
  function LacksId(id: string): Task -> bool {
    (t: Task) => t.id != Some(id)
  }

  /** `filter(t => t.id !== id)`: every task carrying `id` removed, the others kept in order. */
  function RemoveId(s: seq<Task>, id: string): (r: seq<Task>)
    ensures forall j :: 0 <= j < |r| ==> r[j].id != Some(id)
    ensures Seqs.IsSubsequence(r, s)
  {
    Seqs.Filter(s, LacksId(id))
  }

  /** Each task without `id` keeps its multiplicity; each task with it is gone. */
  lemma RemoveIdCounts(s: seq<Task>, id: string)
    ensures forall t :: multiset(RemoveId(s, id))[t] == if t.id == Some(id) then 0 else multiset(s)[t]
  {
    Seqs.FilterMultiset(s, LacksId(id));
  }

  /** The present value, or the fallback when absent. */
  function Pick<T>(o: Option<T>, otherwise: T): T {
    if o.Some? then o.value else otherwise
  }

  /** `{ ...t, ...u }`: each field present in the patch wins, the others keep their value. */
  function Merge(t: Task, u: TaskPatch): (r: Task)
    ensures r.title == Pick(u.title, t.title) && r.developer == Pick(u.developer, t.developer)
    ensures r.priority == Pick(u.priority, t.priority) && r.status == Pick(u.status, t.status)
    ensures r.kind == Pick(u.kind, t.kind)
    ensures r.date == Pick(u.date, t.date)
    ensures r.estimatedSP == Pick(u.estimatedSP, t.estimatedSP) && r.actualSP == Pick(u.actualSP, t.actualSP)
    ensures r.id == (if u.id.Some? then u.id else t.id)
  {
    Task(
      Pick(u.title, t.title),
      Pick(u.developer, t.developer),
      Pick(u.priority, t.priority),
      Pick(u.status, t.status),
      Pick(u.kind, t.kind),
      Pick(u.date, t.date),
      Pick(u.estimatedSP, t.estimatedSP),
      Pick(u.actualSP, t.actualSP),
      if u.id.Some? then u.id else t.id)
  }

  /** Spreading two patches in turn is spreading their combination, the later one winning. */
  function Override(u1: TaskPatch, u2: TaskPatch): TaskPatch {
    TaskPatch(
      if u2.title.Some? then u2.title else u1.title,
      if u2.developer.Some? then u2.developer else u1.developer,
      if u2.priority.Some? then u2.priority else u1.priority,
      if u2.status.Some? then u2.status else u1.status,
      if u2.kind.Some? then u2.kind else u1.kind,
      if u2.date.Some? then u2.date else u1.date,
      if u2.estimatedSP.Some? then u2.estimatedSP else u1.estimatedSP,
      if u2.actualSP.Some? then u2.actualSP else u1.actualSP,
      if u2.id.Some? then u2.id else u1.id)
  }

  /** Merging nothing changes nothing. */
  lemma MergeEmpty(t: Task)
    ensures Merge(t, EmptyPatch) == t
  {
  }

  /** A patch whose date is an empty string leaves the task with no due date, whatever it had. */
  lemma MergeClearsDate(t: Task, u: TaskPatch)
    requires u.date == Some(None)
    ensures Merge(t, u).date.None?
    ensures Merge(t, u) == Merge(t.(date := None), u)
  {
  }

  /** Applying the same patch twice is applying it once. */
  lemma MergeIdempotent(t: Task, u: TaskPatch)
    ensures Merge(Merge(t, u), u) == Merge(t, u)
  {
  }

  /** Two successive merges equal one merge of the combined patch. */
  lemma MergeTwice(t: Task, u1: TaskPatch, u2: TaskPatch)
    ensures Merge(Merge(t, u1), u2) == Merge(t, Override(u1, u2))
  {
  }

  /** The module-level `taskCache` and the functions that act on it. */
  class TaskApi {
    var cache: seq<Task>

    constructor ()
      ensures cache == []
    {
      cache := [];
    }

    /** `fetchTasks`: the cache when it is non-empty, else the fetched list, which then becomes the cache. */
    method FetchTasks(outcome: FetchOutcome, stampAt: nat -> string) returns (r: Result<seq<Task>>)
      modifies this
      ensures r == FetchResult(old(cache), outcome, stampAt)
      ensures cache == if r.Ok? then r.value else old(cache)
    {
      if |cache| > 0 {
        return Ok(cache);
      }
      match outcome {
        case HttpFailure(status) =>
          return Err(HttpError(status));
        case Received(body) =>
          if body.None? {
            return Err(NullBody);
          }
          if body.value.data.None? {
            return Err(InvalidFormat);
          }
          var tasks := AssignIds(body.value.data.value, stampAt);
          cache := tasks;
          return Ok(tasks);
      }
    }

    /** `createTask`: the task, given an id if it lacks one, goes to the front of the cache. */
    method CreateTask(task: Task, stamp: string) returns (r: Task)
      modifies this
      ensures r == WithId(task, stamp)
      ensures cache == [r] + old(cache)
      ensures |cache| == |old(cache)| + 1 && cache[0] == r && cache[1..] == old(cache)
    {
      r := WithId(task, stamp);
      cache := [r] + cache;
    }

    /** `updateTask`: replaces the first cached task with the same id by the given one. */
    method UpdateTask(task: Task) returns (r: Result<Task>)
      modifies this
      ensures !HasId(task) ==> r == Err(UpdateIdRequired)
      ensures HasId(task) && IndexOfId(old(cache), task.id.value).None?
              ==> r == Err(NotFound(task.id.value))
      ensures HasId(task) && IndexOfId(old(cache), task.id.value).Some? ==> r == Ok(task)
      ensures cache == if r.Ok? then ReplaceFirst(old(cache), task.id.value, task) else old(cache)
    {
      if !HasId(task) {
        return Err(UpdateIdRequired);
      }
      var index := IndexOfId(cache, task.id.value);
      if index.None? {
        return Err(NotFound(task.id.value));
      }
      cache := cache[index.value := task];
      return Ok(task);
    }

    /** `deleteTask`: removes every cached task with the id, provided there is one. */
    method DeleteTask(taskId: string) returns (r: Result<()>)
      modifies this
      ensures r.Err? <==> IndexOfId(old(cache), taskId).None?
      ensures r.Err? ==> r.error == NotFound(taskId)
      ensures cache == if r.Ok? then RemoveId(old(cache), taskId) else old(cache)
    {
      var index := IndexOfId(cache, taskId);
      if index.None? {
        return Err(NotFound(taskId));
      }
      cache := RemoveId(cache, taskId);
      return Ok(());
    }

    /** `patchTask`: merges the patch into the first cached task with the id and returns the result. */
    method PatchTask(taskId: string, updates: TaskPatch) returns (r: Result<Task>)
      modifies this
      ensures taskId == "" ==> r == Err(PatchIdRequired)
      ensures taskId != "" && IndexOfId(old(cache), taskId).None? ==> r == Err(NotFound(taskId))
      ensures taskId != "" && IndexOfId(old(cache), taskId).Some? ==>
                r == Ok(Merge(old(cache)[IndexOfId(old(cache), taskId).value], updates))
      ensures cache == if r.Ok? then ReplaceFirst(old(cache), taskId, r.value) else old(cache)
    {
      if taskId == "" {
        return Err(PatchIdRequired);
      }
      var index := IndexOfId(cache, taskId);
      if index.None? {
        return Err(NotFound(taskId));
      }
      cache := cache[index.value := Merge(cache[index.value], updates)];
      return Ok(cache[index.value]);
    }
  }
}
