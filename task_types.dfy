/**
 * The data model shared by the task API client and the task store:
 * the three closed enumerations, the Task record with its optional
 * id and date, the partial-task update, the API response and the
 * errors the client raises.
 */
module TaskTypes {

  datatype Option<T> = None | Some(value: T)

  /** The six workflow states a task can be in. */
  datatype Status = ReadyToStart | InProgress | WaitingForReview | PendingDeploy | Done | Stuck

  /** The five priorities, from most to least urgent. */
  datatype Priority = Critical | High | Medium | Low | BestEffort

  /** The three kinds of task. */
  datatype TaskType = FeatureEnhancements | Other | Bug

  /**
   * A task. `date` is a timestamp in milliseconds (absent when the task
   * has no due date, including when the task's date string is empty);
   * `id` is absent until the client assigns one.
   */
  datatype Task = Task(
    title: string,
    developer: string,
    priority: Priority,
    status: Status,
    kind: TaskType,
    date: Option<int>,
    estimatedSP: int,
    actualSP: int,
    id: Option<string>)

  /** The body of the remote endpoint's answer; `data` may be missing. */
  datatype ApiResponse = ApiResponse(response: bool, data: Option<seq<Task>>)

  /** The failures the API client raises. */
  datatype ApiError =
    | HttpError(status: int)          // non-OK HTTP status on the one GET
    | NullBody                        // reading `data` of a `null` body throws a TypeError
    | InvalidFormat                   // a non-null body without its `data` array
    | UpdateIdRequired                // update called with a task without id
    | PatchIdRequired                 // patch called with an empty id
    | NotFound(id: string)            // no cached task carries the id

  datatype Result<T> = Ok(value: T) | Err(error: ApiError)

  /** Position of each value in its declaration. */
  function StatusOrdinal(s: Status): nat {
    match s
    case ReadyToStart => 0
    case InProgress => 1
    case WaitingForReview => 2
    case PendingDeploy => 3
    case Done => 4
    case Stuck => 5
  }

  function PriorityOrdinal(p: Priority): nat {
    match p
    case Critical => 0
    case High => 1
    case Medium => 2
    case Low => 3
    case BestEffort => 4
  }

  function TypeOrdinal(k: TaskType): nat {
    match k
    case FeatureEnhancements => 0
    case Other => 1
    case Bug => 2
  }

  /** Every status, in declaration order, each exactly once. */
  function AllStatuses(): (r: seq<Status>)
    ensures |r| == 6
    ensures forall s: Status :: s in r
    ensures forall i, j :: 0 <= i < j < |r| ==> r[i] != r[j]
  {
    var r := [ReadyToStart, InProgress, WaitingForReview, PendingDeploy, Done, Stuck];
    assert forall s: Status :: StatusOrdinal(s) < 6 && r[StatusOrdinal(s)] == s && s in r;
    r
  }

  /** Every priority, most urgent first, each exactly once. */
  function AllPriorities(): (r: seq<Priority>)
    ensures |r| == 5
    ensures forall p: Priority :: p in r
    ensures forall i, j :: 0 <= i < j < |r| ==> r[i] != r[j]
  {
    var r := [Critical, High, Medium, Low, BestEffort];
    assert forall p: Priority :: PriorityOrdinal(p) < 5 && r[PriorityOrdinal(p)] == p && p in r;
    r
  }

  /** Every task type, each exactly once. */
  function AllTaskTypes(): (r: seq<TaskType>)
    ensures |r| == 3
    ensures forall k: TaskType :: k in r
    ensures forall i, j :: 0 <= i < j < |r| ==> r[i] != r[j]
  {
    var r := [FeatureEnhancements, Other, Bug];
    assert forall k: TaskType :: TypeOrdinal(k) < 3 && r[TypeOrdinal(k)] == k && k in r;
    r
  }

  /** JavaScript truthiness of `task.id`: present and not the empty string. */
  predicate HasId(t: Task) {
    t.id.Some? && t.id.value != ""
  }
}
