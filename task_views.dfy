/**
 * The store's derived list `filteredTasks`: the task list narrowed by
 * status, priority, developer, exact day, active view and title search,
 * in that order, then sorted by due date, priority rank or the
 * creation proxy.
 */
module TaskViews {
  import opened TaskTypes
  import opened Text
  import Seqs

  /** Milliseconds in a day. */
  const MsPerDay := 86400000

  /** The calendar day of a timestamp (the host's time-zone offset is abstracted away). */
  function Day(ts: int): int {
    ts / MsPerDay
  }

  datatype ActiveView = All | Today | Upcoming | Completed

  /** The store's `"dueDate" | "priority" | "createdAt"`. */
  datatype SortOption = ByDueDate | ByPriority | ByCreatedAt

  datatype SortDirection = Asc | Desc

  /**
   * The filter panel: allowed statuses and priorities (empty means all),
   * one exact day, one developer name.
   */
  datatype Filters = Filters(status: seq<Status>, priority: seq<Priority>, date: Option<int>, developer: Option<string>)

  const NoFilters := Filters([], [], None, None)

  /** Everything `filteredTasks` reads besides the task list and the clock. */
  datatype ViewState = ViewState(
    filters: Filters,
    searchQuery: string,
    activeView: ActiveView,
    sort: SortOption,
    direction: SortDirection)

  // ---------------------------------------------------------------------
  // The six narrowing conditions

  predicate PassesStatus(t: Task, statuses: seq<Status>) {
    |statuses| == 0 || t.status in statuses
  }

  predicate PassesPriority(t: Task, priorities: seq<Priority>) {
    |priorities| == 0 || t.priority in priorities
  }

  /**
   * A task's developer field names `name`: never when the field is empty;
   * for a comma-separated field, when one trimmed element is `name`;
   * otherwise when the trimmed field is `name`.
   */
  predicate DeveloperMatches(developer: string, name: string) {
    developer != [] &&
    if ',' in developer then name in TrimAll(Split(developer, ','))
    else Trim(developer) == name
  }

  /** The developer filter is off when unset or empty. */
  predicate PassesDeveloper(t: Task, developer: Option<string>) {
    developer.None? || developer.value == [] || DeveloperMatches(t.developer, developer.value)
  }

  /** The date filter keeps the tasks due on the same calendar day. */
  predicate PassesDate(t: Task, date: Option<int>) {
    date.None? || (t.date.Some? && Day(t.date.value) == Day(date.value))
  }

  /** `today` = due on the day of `now`; `upcoming` = due on a later day; `completed` = status Done. */
  predicate PassesView(t: Task, view: ActiveView, now: int) {
    match view
    case All => true
    case Today => t.date.Some? && Day(t.date.value) == Day(now)
    case Upcoming => t.date.Some? && Day(t.date.value) > Day(now)
    case Completed => t.status == Done
  }

  /** A blank query keeps everything; otherwise the lower-cased title must contain the lower-cased, trimmed query. */
  predicate PassesSearch(t: Task, query: string) {
    Trim(query) == [] || Includes(ToLower(t.title), Trim(ToLower(query)))
  }

  /** A task survives the whole narrowing chain. */
  predicate Keep(t: Task, v: ViewState, now: int) {
    && PassesStatus(t, v.filters.status)
    && PassesPriority(t, v.filters.priority)
    && PassesDeveloper(t, v.filters.developer)
    && PassesDate(t, v.filters.date)
    && PassesView(t, v.activeView, now)
    && PassesSearch(t, v.searchQuery)
  }

  /** The tests each narrowing step hands to `filter`, and the whole chain's test. */
  function StatusTest(statuses: seq<Status>): Task -> bool {
    (t: Task) => PassesStatus(t, statuses)
  }

  function PriorityTest(priorities: seq<Priority>): Task -> bool {
    (t: Task) => PassesPriority(t, priorities)
  }

  function DeveloperTest(developer: Option<string>): Task -> bool {
    (t: Task) => PassesDeveloper(t, developer)
  }

  function DateTest(date: Option<int>): Task -> bool {
    (t: Task) => PassesDate(t, date)
  }

  function ViewTest(view: ActiveView, now: int): Task -> bool {
    (t: Task) => PassesView(t, view, now)
  }

  function SearchTest(query: string): Task -> bool {
    (t: Task) => PassesSearch(t, query)
  }

  /** The six tests joined in the order the steps run. */
  function KeepTest(v: ViewState, now: int): Task -> bool {
    var q2 := Seqs.Both(StatusTest(v.filters.status), PriorityTest(v.filters.priority));
    var q3 := Seqs.Both(q2, DeveloperTest(v.filters.developer));
    var q4 := Seqs.Both(q3, DateTest(v.filters.date));
    var q5 := Seqs.Both(q4, ViewTest(v.activeView, now));
    Seqs.Both(q5, SearchTest(v.searchQuery))
  }

  /** The joined test holds of a task exactly when it passes every condition. */
  lemma KeepTestMeans(v: ViewState, now: int)
    ensures forall t :: KeepTest(v, now)(t) == Keep(t, v, now)
  {
    var p1, p2, p3 := StatusTest(v.filters.status), PriorityTest(v.filters.priority), DeveloperTest(v.filters.developer);
    var p4, p5, p6 := DateTest(v.filters.date), ViewTest(v.activeView, now), SearchTest(v.searchQuery);
    var q2 := Seqs.Both(p1, p2);
    var q3 := Seqs.Both(q2, p3);
    var q4 := Seqs.Both(q3, p4);
    var q5 := Seqs.Both(q4, p5);
    forall t
      ensures KeepTest(v, now)(t) == Keep(t, v, now)
    {
      assert q2(t) == (PassesStatus(t, v.filters.status) && PassesPriority(t, v.filters.priority));
      assert q3(t) == (q2(t) && PassesDeveloper(t, v.filters.developer));
      assert q4(t) == (q3(t) && PassesDate(t, v.filters.date));
      assert q5(t) == (q4(t) && PassesView(t, v.activeView, now));
      assert KeepTest(v, now)(t) == (q5(t) && PassesSearch(t, v.searchQuery));
    }
  }

  /** A narrowing step: the tasks satisfying `p`, each with its multiplicity, in order. */
  function Narrow(s: seq<Task>, p: Task -> bool): (r: seq<Task>)
    ensures forall t :: multiset(r)[t] == if p(t) then multiset(s)[t] else 0
    ensures (forall i :: 0 <= i < |s| ==> p(s[i])) ==> r == s
    ensures Seqs.IsSubsequence(r, s)
  {
    Seqs.FilterMultiset(s, p);
    Seqs.Filter(s, p)
  }

  // ---------------------------------------------------------------------
  // The six narrowing steps, in the order `filteredTasks` applies them

  function FilterStatus(s: seq<Task>, statuses: seq<Status>): (r: seq<Task>)
    ensures forall t :: multiset(r)[t] == if PassesStatus(t, statuses) then multiset(s)[t] else 0
    ensures (forall i :: 0 <= i < |s| ==> PassesStatus(s[i], statuses)) ==> r == s
    ensures r == Seqs.Filter(s, StatusTest(statuses))
  {
    if |statuses| > 0 then Narrow(s, StatusTest(statuses)) else s
  }

  function FilterPriority(s: seq<Task>, priorities: seq<Priority>): (r: seq<Task>)
    ensures forall t :: multiset(r)[t] == if PassesPriority(t, priorities) then multiset(s)[t] else 0
    ensures (forall i :: 0 <= i < |s| ==> PassesPriority(s[i], priorities)) ==> r == s
    ensures r == Seqs.Filter(s, PriorityTest(priorities))
  {
    if |priorities| > 0 then Narrow(s, PriorityTest(priorities)) else s
  }

  function FilterDeveloper(s: seq<Task>, developer: Option<string>): (r: seq<Task>)
    ensures forall t :: multiset(r)[t] == if PassesDeveloper(t, developer) then multiset(s)[t] else 0
    ensures (forall i :: 0 <= i < |s| ==> PassesDeveloper(s[i], developer)) ==> r == s
    ensures r == Seqs.Filter(s, DeveloperTest(developer))
  {
    if developer.Some? && developer.value != [] then Narrow(s, DeveloperTest(developer)) else s
  }

  function FilterDate(s: seq<Task>, date: Option<int>): (r: seq<Task>)
    ensures forall t :: multiset(r)[t] == if PassesDate(t, date) then multiset(s)[t] else 0
    ensures (forall i :: 0 <= i < |s| ==> PassesDate(s[i], date)) ==> r == s
    ensures r == Seqs.Filter(s, DateTest(date))
  {
    if date.Some? then Narrow(s, DateTest(date)) else s
  }

  function FilterView(s: seq<Task>, view: ActiveView, now: int): (r: seq<Task>)
    ensures forall t :: multiset(r)[t] == if PassesView(t, view, now) then multiset(s)[t] else 0
    ensures (forall i :: 0 <= i < |s| ==> PassesView(s[i], view, now)) ==> r == s
    ensures view == All ==> r == s
    ensures r == Seqs.Filter(s, ViewTest(view, now))
  {
    if view != All then Narrow(s, ViewTest(view, now)) else s
  }

  function FilterSearch(s: seq<Task>, query: string): (r: seq<Task>)
    ensures forall t :: multiset(r)[t] == if PassesSearch(t, query) then multiset(s)[t] else 0
    ensures Trim(query) == [] ==> r == s
    ensures r == Seqs.Filter(s, SearchTest(query))
  {
    if Trim(query) != [] then Narrow(s, SearchTest(query)) else s
  }

  /** The search step keeps a list whose every task matches the query unchanged. */
  lemma FilterSearchAllPass(s: seq<Task>, query: string)
    requires forall i :: 0 <= i < |s| ==> PassesSearch(s[i], query)
    ensures FilterSearch(s, query) == s
  {
    assert forall i :: 0 <= i < |s| ==> SearchTest(query)(s[i]);
  }

  // ---------------------------------------------------------------------
  // Sorting

  /** The `priorityOrder` table: Critical 5 down to Best Effort 1. */
  function Rank(p: Priority): (r: int)
    ensures 1 <= r <= 5
    ensures r == 5 - PriorityOrdinal(p)
  {
    match p
    case Critical => 5
    case High => 4
    case Medium => 3
    case Low => 2
    case BestEffort => 1
  }

  /**
   * Where a task goes under a sort option and direction, as a pair compared
   * lexicographically. Due date: dated tasks by timestamp, undated ones
   * after them ascending and before them descending. Priority: by rank.
   * Creation proxy: by timestamp, an undated task counting as 0.
   */
  function SortKey(t: Task, option: SortOption, dir: SortDirection): (int, int) {
    match option
    case ByDueDate =>
      if dir == Asc then (if t.date.Some? then (0, t.date.value) else (1, 0))
      else (if t.date.Some? then (1, -t.date.value) else (0, 0))
    case ByPriority =>
      (0, if dir == Asc then Rank(t.priority) else -Rank(t.priority))
    case ByCreatedAt =>
      var d := if t.date.Some? then t.date.value else 0;
      (0, if dir == Asc then d else -d)
  }

  predicate KeyLe(a: (int, int), b: (int, int)) {
    a.0 < b.0 || (a.0 == b.0 && a.1 <= b.1)
  }

  /** `a` may precede `b` in the sorted list. */
  predicate InOrder(a: Task, b: Task, option: SortOption, dir: SortDirection) {
    KeyLe(SortKey(a, option, dir), SortKey(b, option, dir))
  }

  predicate SortedBy(s: seq<Task>, option: SortOption, dir: SortDirection) {
    forall i, j :: 0 <= i < j < |s| ==> InOrder(s[i], s[j], option, dir)
  }

  /**
   * A list holding `x` and the elements of `s`, all of which `lo` may
   * precede, holds only elements `lo` may precede.
   */
  lemma BoundedBelow(lo: Task, x: Task, s: seq<Task>, rest: seq<Task>, option: SortOption, dir: SortDirection)
    requires InOrder(lo, x, option, dir)
    requires forall k :: 0 <= k < |s| ==> InOrder(lo, s[k], option, dir)
    requires multiset(rest) == multiset(s) + multiset{x}
    ensures forall y :: y in rest ==> InOrder(lo, y, option, dir)
  {
    forall y | y in rest
      ensures InOrder(lo, y, option, dir)
    {
      assert y in multiset(rest);
      if y != x {
        assert y in multiset(s);
      }
    }
  }

  /** Inserts `x` before the first element it may precede. */
  function Insert(x: Task, s: seq<Task>, option: SortOption, dir: SortDirection): (r: seq<Task>)
    requires SortedBy(s, option, dir)
    ensures SortedBy(r, option, dir)
    ensures multiset(r) == multiset(s) + multiset{x}
    decreases |s|
  {
    if s == [] then [x]
    else if InOrder(x, s[0], option, dir) then [x] + s
    else
      var rest := Insert(x, s[1..], option, dir);
      assert s == [s[0]] + s[1..];
      var r := [s[0]] + rest;
      BoundedBelow(s[0], x, s[1..], rest, option, dir);
      assert forall j :: 0 < j < |r| ==> r[j] in rest by {
        forall j | 0 < j < |r| ensures r[j] in rest { assert r[j] == rest[j - 1]; }
      }
      r
  }

  /** Stable insertion sort: the same tasks, ordered by `SortKey`. */
  function SortBy(s: seq<Task>, option: SortOption, dir: SortDirection): (r: seq<Task>)
    ensures SortedBy(r, option, dir)
    ensures multiset(r) == multiset(s)
    decreases |s|
  {
    if s == [] then []
    else
      assert s == [s[0]] + s[1..];
      Insert(s[0], SortBy(s[1..], option, dir), option, dir)
  }

  /** The test `SortKey(t) == k`: the tasks that tie at key `k`. */
  function KeyIs(k: (int, int), option: SortOption, dir: SortDirection): Task -> bool {
    (t: Task) => SortKey(t, option, dir) == k
  }

  /**
   * Inserting `x` puts it after every task with the same key, so among
   * the tasks tied at any key, `x` comes first and the rest keep their order.
   */
  lemma {:induction false} InsertTies(x: Task, s: seq<Task>, option: SortOption, dir: SortDirection, k: (int, int))
    requires SortedBy(s, option, dir)
    ensures Seqs.Filter(Insert(x, s, option, dir), KeyIs(k, option, dir))
            == (if SortKey(x, option, dir) == k then [x] else []) + Seqs.Filter(s, KeyIs(k, option, dir))
    decreases |s|
  {
    var p := KeyIs(k, option, dir);
    if s == [] {
      Seqs.FilterCons(x, [], p);
    } else if InOrder(x, s[0], option, dir) {
      Seqs.FilterCons(x, s, p);
    } else {
      InsertTies(x, s[1..], option, dir, k);
      Seqs.FilterSwap(x, s[0], s[1..], Insert(x, s[1..], option, dir), p);
      Seqs.FilterCons(s[0], s[1..], p);
      Seqs.FilterHead(s, p);
    }
  }

  /**
   * The sort is stable: the tasks tied at any key appear in the sorted
   * list in the order they had in the input.
   */
  lemma {:induction false} SortStable(s: seq<Task>, option: SortOption, dir: SortDirection, k: (int, int))
    ensures Seqs.Filter(SortBy(s, option, dir), KeyIs(k, option, dir)) == Seqs.Filter(s, KeyIs(k, option, dir))
    decreases |s|
  {
    if s != [] {
      SortStable(s[1..], option, dir, k);
      InsertTies(s[0], SortBy(s[1..], option, dir), option, dir, k);
      Seqs.FilterHead(s, KeyIs(k, option, dir));
    }
  }

  /** Sorting a list that is already in order leaves it as it is. */
  lemma {:induction false} SortSorted(s: seq<Task>, option: SortOption, dir: SortDirection)
    requires SortedBy(s, option, dir)
    ensures SortBy(s, option, dir) == s
    decreases |s|
  {
    if s != [] {
      SortSorted(s[1..], option, dir);
      assert s == [s[0]] + s[1..];
    }
  }

  // ---------------------------------------------------------------------
  // The derived list

  /** The six narrowing steps of `filteredTasks`, in order, before the sort. */
  function Narrowed(tasks: seq<Task>, v: ViewState, now: int): seq<Task> {
    var a := FilterStatus(tasks, v.filters.status);
    var b := FilterPriority(a, v.filters.priority);
    var c := FilterDeveloper(b, v.filters.developer);
    var d := FilterDate(c, v.filters.date);
    var e := FilterView(d, v.activeView, now);
    FilterSearch(e, v.searchQuery)
  }

  /** The narrowing chain keeps exactly the tasks that pass every condition, each with its multiplicity. */
  lemma NarrowedCounts(tasks: seq<Task>, v: ViewState, now: int)
    ensures forall t :: multiset(Narrowed(tasks, v, now))[t] == if Keep(t, v, now) then multiset(tasks)[t] else 0
  {
    var a := FilterStatus(tasks, v.filters.status);
    var b := FilterPriority(a, v.filters.priority);
    var c := FilterDeveloper(b, v.filters.developer);
    var d := FilterDate(c, v.filters.date);
    var e := FilterView(d, v.activeView, now);
    var f := FilterSearch(e, v.searchQuery);
    forall t
      ensures multiset(f)[t] == if Keep(t, v, now) then multiset(tasks)[t] else 0
    {
      assert multiset(a)[t] == if PassesStatus(t, v.filters.status) then multiset(tasks)[t] else 0;
      assert multiset(b)[t] == if PassesPriority(t, v.filters.priority) then multiset(a)[t] else 0;
      assert multiset(c)[t] == if PassesDeveloper(t, v.filters.developer) then multiset(b)[t] else 0;
      assert multiset(d)[t] == if PassesDate(t, v.filters.date) then multiset(c)[t] else 0;
      assert multiset(e)[t] == if PassesView(t, v.activeView, now) then multiset(d)[t] else 0;
      assert multiset(f)[t] == if PassesSearch(t, v.searchQuery) then multiset(e)[t] else 0;
    }
  }

  /** The six narrowing steps in a row are one `filter` by `Keep`, so survivors keep their order. */
  lemma NarrowedIsFilter(tasks: seq<Task>, v: ViewState, now: int)
    ensures Narrowed(tasks, v, now) == Seqs.Filter(tasks, KeepTest(v, now))
  {
    var p1, p2, p3 := StatusTest(v.filters.status), PriorityTest(v.filters.priority), DeveloperTest(v.filters.developer);
    var p4, p5, p6 := DateTest(v.filters.date), ViewTest(v.activeView, now), SearchTest(v.searchQuery);
    var q2 := Seqs.Both(p1, p2);
    var q3 := Seqs.Both(q2, p3);
    var q4 := Seqs.Both(q3, p4);
    var q5 := Seqs.Both(q4, p5);
    var a := FilterStatus(tasks, v.filters.status);
    var b := FilterPriority(a, v.filters.priority);
    assert b == Seqs.Filter(tasks, q2) by { Seqs.FilterFilter(tasks, p1, p2); }
    var c := FilterDeveloper(b, v.filters.developer);
    assert c == Seqs.Filter(tasks, q3) by { Seqs.FilterFilter(tasks, q2, p3); }
    var d := FilterDate(c, v.filters.date);
    assert d == Seqs.Filter(tasks, q4) by { Seqs.FilterFilter(tasks, q3, p4); }
    var e := FilterView(d, v.activeView, now);
    assert e == Seqs.Filter(tasks, q5) by { Seqs.FilterFilter(tasks, q4, p5); }
    Seqs.FilterFilter(tasks, q5, p6);
  }

  /**
   * `filteredTasks` at time `now`: exactly the tasks that pass every
   * condition, each as often as in `tasks`, in sorted order.
   */
  function FilteredTasks(tasks: seq<Task>, v: ViewState, now: int): (r: seq<Task>)
    ensures forall t :: multiset(r)[t] == if Keep(t, v, now) then multiset(tasks)[t] else 0
    ensures SortedBy(r, v.sort, v.direction)
  {
    NarrowedCounts(tasks, v, now);
    SortBy(Narrowed(tasks, v, now), v.sort, v.direction)
  }

  /**
   * Among the tasks shown that tie under the selected sort, the order is
   * the store's order: they are the store's tasks passing every condition
   * and having that key, in list order.
   */
  lemma FilteredTasksStable(tasks: seq<Task>, v: ViewState, now: int, k: (int, int))
    ensures Seqs.Filter(FilteredTasks(tasks, v, now), KeyIs(k, v.sort, v.direction))
            == Seqs.Filter(tasks, Seqs.Both(KeepTest(v, now), KeyIs(k, v.sort, v.direction)))
  {
    NarrowedIsFilter(tasks, v, now);
    SortStable(Narrowed(tasks, v, now), v.sort, v.direction, k);
    Seqs.FilterFilter(tasks, KeepTest(v, now), KeyIs(k, v.sort, v.direction));
  }

  /** Recomputing the derived list from itself changes nothing. */
  lemma FilteredTasksIdempotent(tasks: seq<Task>, v: ViewState, now: int)
    ensures FilteredTasks(FilteredTasks(tasks, v, now), v, now) == FilteredTasks(tasks, v, now)
  {
    var r := FilteredTasks(tasks, v, now);
    assert forall i :: 0 <= i < |r| ==> Keep(r[i], v, now) by {
      forall i | 0 <= i < |r| ensures Keep(r[i], v, now) {
        assert multiset(r)[r[i]] > 0;
      }
    }
    KeptTasksAreFixed(r, v, now);
    SortSorted(r, v.sort, v.direction);
  }

  /** A list whose every task passes all conditions goes through the narrowing chain unchanged. */
  lemma KeptTasksAreFixed(r: seq<Task>, v: ViewState, now: int)
    requires forall i :: 0 <= i < |r| ==> Keep(r[i], v, now)
    ensures Narrowed(r, v, now) == r
  {
    KeepTestMeans(v, now);
    assert forall i :: 0 <= i < |r| ==> KeepTest(v, now)(r[i]);
    NarrowedIsFilter(r, v, now);
  }

  // ---------------------------------------------------------------------
  // What each sort option promises

  /** Ascending priority sort: ranks never decrease; descending: they never increase. */
  lemma PriorityOrder(s: seq<Task>, dir: SortDirection)
    requires SortedBy(s, ByPriority, dir)
    ensures dir == Asc ==> forall i, j :: 0 <= i < j < |s| ==> Rank(s[i].priority) <= Rank(s[j].priority)
    ensures dir == Desc ==> forall i, j :: 0 <= i < j < |s| ==> Rank(s[i].priority) >= Rank(s[j].priority)
  {
    assert forall i, j :: 0 <= i < j < |s| ==> InOrder(s[i], s[j], ByPriority, dir);
  }

  /**
   * Due-date sort: ascending puts every undated task after every dated
   * one, descending before; dated tasks follow their timestamps in the
   * chosen direction.
   */
  lemma DueDateOrder(s: seq<Task>, dir: SortDirection)
    requires SortedBy(s, ByDueDate, dir)
    ensures dir == Asc ==> forall i, j :: 0 <= i < j < |s| && s[i].date.None? ==> s[j].date.None?
    ensures dir == Desc ==> forall i, j :: 0 <= i < j < |s| && s[j].date.None? ==> s[i].date.None?
    ensures dir == Asc ==> forall i, j :: 0 <= i < j < |s| && s[i].date.Some? && s[j].date.Some?
                             ==> s[i].date.value <= s[j].date.value
    ensures dir == Desc ==> forall i, j :: 0 <= i < j < |s| && s[i].date.Some? && s[j].date.Some?
                             ==> s[i].date.value >= s[j].date.value
  {
    assert forall i, j :: 0 <= i < j < |s| ==> InOrder(s[i], s[j], ByDueDate, dir);
  }

  /** Creation-proxy sort: timestamps, an undated task counting as 0, in the chosen direction. */
  lemma CreatedAtOrder(s: seq<Task>, dir: SortDirection)
    requires SortedBy(s, ByCreatedAt, dir)
    ensures forall i, j :: 0 <= i < j < |s| ==>
              var a := if s[i].date.Some? then s[i].date.value else 0;
              var b := if s[j].date.Some? then s[j].date.value else 0;
              if dir == Asc then a <= b else a >= b
  {
    assert forall i, j :: 0 <= i < j < |s| ==> InOrder(s[i], s[j], ByCreatedAt, dir);
  }

  /**
   * Each comparator's descending branch is its ascending branch reversed:
   * `a` sorts strictly before `b` ascending exactly when `b` sorts strictly
   * before `a` descending. Undated tasks go last ascending and first
   * descending, so the due-date sort obeys this too.
   */
  lemma DescReversesAsc(a: Task, b: Task, option: SortOption)
    ensures (InOrder(a, b, option, Asc) && !InOrder(b, a, option, Asc))
            <==> (InOrder(b, a, option, Desc) && !InOrder(a, b, option, Desc))
  {
  }

  // ---------------------------------------------------------------------
  // What the developer and search conditions mean

  /**
   * The comma case is not special: a non-empty developer field matches a
   * name exactly when one trimmed comma-separated element equals it.
   */
  lemma {:induction false} DeveloperMatchesElement(developer: string, name: string)
    requires developer != []
    ensures DeveloperMatches(developer, name) <==> name in TrimAll(Split(developer, ','))
  {
    if ',' !in developer {
      SplitWithoutSeparator(developer, ',');
      assert TrimAll([developer]) == [Trim(developer)];
    }
  }

  /** A comma-separated developer field matches each listed name, surrounding spaces ignored. */
  lemma DeveloperListExample()
    ensures DeveloperMatches("Alice, Bob", "Alice")
  {
    FirstPieceExample();
    DeveloperMatchesElement("Alice, Bob", "Alice");
  }

  lemma FirstPieceExample()
    ensures TrimAll(Split("Alice, Bob", ','))[0] == "Alice"
  {
    SplitExample();
    TrimmedNameExample();
  }

  lemma TrimmedNameExample()
    ensures Trim("Alice") == "Alice"
  {
    var name := "Alice";
    assert name[0] == 'A' && name[|name| - 1] == 'e';
    TrimOfTrimmed(name);
  }

  /** A single name matches only itself. */
  lemma DeveloperSingleExample()
    ensures !DeveloperMatches("Bob", "Alice")
  {
    var dev := "Bob";
    assert ',' !in dev by {
      assert dev[0] == 'B' && dev[1] == 'o' && dev[2] == 'b';
    }
    TrimOfTrimmed(dev);
    assert dev[0] != "Alice"[0];
  }

  lemma SplitExample()
    ensures Split("Alice, Bob", ',') == ["Alice", " Bob"]
  {
    var pieces := ["Alice", " Bob"];
    assert Join(pieces, ',') == "Alice, Bob" by {
      assert Join(pieces[1..], ',') == " Bob";
    }
    assert ',' !in pieces[0] && ',' !in pieces[1];
    SplitJoin(pieces, ',');
  }

  /**
   * The search never looks for the empty string: whenever the guard lets
   * it run, the trimmed lower-cased query is non-empty.
   */
  lemma SearchQueryNonEmpty(query: string)
    requires Trim(query) != []
    ensures Trim(ToLower(query)) != []
  {
    TrimToLowerCommute(query);
  }
}
