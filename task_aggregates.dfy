/**
 * The store's aggregate getters: the task with a given id, the count of
 * tasks per status, the filtered tasks grouped by status, and the sorted
 * list of distinct developer names.
 */
module TaskAggregates {
  import opened TaskTypes
  import opened Text
  import Seqs
  import TaskApi
  import opened TaskViews

  /** `getTaskById`: `find(t => t.id === id)`, the first task carrying `id`. */
  function TaskById(tasks: seq<Task>, id: string): (r: Option<Task>)
    ensures r.None? <==> forall j :: 0 <= j < |tasks| ==> tasks[j].id != Some(id)
    ensures r.Some? ==> exists j :: 0 <= j < |tasks| && TaskApi.FirstWithId(tasks, id, j) && r.value == tasks[j]
  {
    match TaskApi.IndexOfId(tasks, id)
    case None => None
    case Some(i) => Some(tasks[i])
  }

  /** The test `task.status === st`. */
  function StatusIs(st: Status): Task -> bool {
    (t: Task) => t.status == st
  }

  /** The tasks whose status is `st`, in their original order: one status bucket. */
  function OfStatus(s: seq<Task>, st: Status): (r: seq<Task>)
    ensures forall i :: 0 <= i < |r| ==> r[i].status == st
    ensures Seqs.IsSubsequence(r, s)
  {
    Seqs.Filter(s, StatusIs(st))
  }

  /** A bucket holds every task of its status, as often as the list does, and no other task. */
  lemma OfStatusCounts(s: seq<Task>, st: Status)
    ensures forall t :: multiset(OfStatus(s, st))[t] == if t.status == st then multiset(s)[t] else 0
  {
    Seqs.FilterMultiset(s, StatusIs(st));
  }

  /** Appending a task adds it to its own bucket and to no other. */
  lemma OfStatusAppend(s: seq<Task>, t: Task)
    ensures forall st :: OfStatus(s + [t], st) == OfStatus(s, st) + (if t.status == st then [t] else [])
  {
    forall st {
      Seqs.FilterAppend(s, t, StatusIs(st));
    }
  }

  /** The six bucket sizes, in declaration order, added up. */
  function BucketSizes(s: seq<Task>): nat {
    |OfStatus(s, ReadyToStart)| + |OfStatus(s, InProgress)| + |OfStatus(s, WaitingForReview)|
    + |OfStatus(s, PendingDeploy)| + |OfStatus(s, Done)| + |OfStatus(s, Stuck)|
  }

  /** The status buckets partition the list: every task lands in exactly one of them. */
  lemma {:induction false} BucketsPartition(s: seq<Task>)
    ensures BucketSizes(s) == |s|
    decreases |s|
  {
    if s != [] {
      var init := s[..|s| - 1];
      assert s == init + [s[|s| - 1]];
      var t := s[|s| - 1];
      BucketsPartition(init);
      OfStatusAppend(init, t);
    }
  }

  /** The six statuses, each with no task yet. */
  function EmptyCounts(): (r: map<Status, nat>)
    ensures forall st: Status :: st in r && r[st] == 0
  {
    map st | st in AllStatuses() :: 0
  }

  /** The six statuses, each with an empty bucket. */
  function EmptyGroups(): (r: map<Status, seq<Task>>)
    ensures forall st: Status :: st in r && r[st] == []
  {
    map st | st in AllStatuses() :: []
  }

  /**
   * `taskCountsByStatus`: one counter per status, each started at zero
   * and incremented once per task of that status; every status is a key
   * and its count is the size of its bucket.
   */
  method CountByStatus(tasks: seq<Task>) returns (counts: map<Status, nat>)
    ensures forall st: Status :: st in counts && counts[st] == |OfStatus(tasks, st)|
    ensures counts[ReadyToStart] + counts[InProgress] + counts[WaitingForReview]
            + counts[PendingDeploy] + counts[Done] + counts[Stuck] == |tasks|
  {
    counts := EmptyCounts();
    var i := 0;
    while i < |tasks|
      invariant 0 <= i <= |tasks|
      invariant forall st: Status :: st in counts && counts[st] == |OfStatus(tasks[..i], st)|
    {
      var t := tasks[i];
      assert tasks[..i + 1] == tasks[..i] + [t];
      OfStatusAppend(tasks[..i], t);
      counts := counts[t.status := counts[t.status] + 1];
      i := i + 1;
    }
    assert tasks[..i] == tasks;
    BucketsPartition(tasks);
  }

  /**
   * `tasksByStatus`: one bucket per status, each started empty; every
   * task is pushed onto the bucket of its status, so each bucket holds
   * the tasks of that status in their order in the list.
   */
  method GroupByStatus(tasks: seq<Task>) returns (grouped: map<Status, seq<Task>>)
    ensures forall st: Status :: st in grouped && grouped[st] == OfStatus(tasks, st)
    ensures |grouped[ReadyToStart]| + |grouped[InProgress]| + |grouped[WaitingForReview]|
            + |grouped[PendingDeploy]| + |grouped[Done]| + |grouped[Stuck]| == |tasks|
  {
    grouped := EmptyGroups();
    var i := 0;
    while i < |tasks|
      invariant 0 <= i <= |tasks|
      invariant forall st: Status :: st in grouped && grouped[st] == OfStatus(tasks[..i], st)
    {
      var t := tasks[i];
      assert tasks[..i + 1] == tasks[..i] + [t];
      OfStatusAppend(tasks[..i], t);
      grouped := grouped[t.status := grouped[t.status] + [t]];
      i := i + 1;
    }
    assert tasks[..i] == tasks;
    BucketsPartition(tasks);
  }

  /**
   * `tasksByStatus` groups the derived list `filteredTasks`: each bucket
   * holds the shown tasks of its status, in shown order, and a task of the
   * store's list lands in its status's bucket exactly as often as it is
   * in the list when it passes every condition, and never otherwise.
   */
  method TasksByStatus(tasks: seq<Task>, v: ViewState, now: int) returns (grouped: map<Status, seq<Task>>)
    ensures forall st: Status :: st in grouped && grouped[st] == OfStatus(FilteredTasks(tasks, v, now), st)
    ensures forall st: Status, t: Task :: st in grouped &&
              multiset(grouped[st])[t] == if t.status == st && Keep(t, v, now) then multiset(tasks)[t] else 0
  {
    grouped := GroupByStatus(FilteredTasks(tasks, v, now));
    forall st: Status {
      ShownBucketCounts(tasks, v, now, st);
    }
  }

  /** A bucket of the shown tasks holds each task of its status that passes every condition, as often as the list does. */
  lemma ShownBucketCounts(tasks: seq<Task>, v: ViewState, now: int, st: Status)
    ensures forall t: Task :: multiset(OfStatus(FilteredTasks(tasks, v, now), st))[t]
                              == if t.status == st && Keep(t, v, now) then multiset(tasks)[t] else 0
  {
    OfStatusCounts(FilteredTasks(tasks, v, now), st);
  }

  /**
   * The names one task contributes to the developer list: nothing for an
   * empty field; for a comma-separated field, each trimmed piece that is
   * not empty; otherwise the trimmed field, even when that is empty.
   */
  function NamesOf(developer: string): set<string> {
    if developer == [] then {}
    else if ',' in developer then NonEmptyNames(TrimAll(Split(developer, ',')))
    else {Trim(developer)}
  }

  /** The pieces that are not empty (`if (dev) developers.add(dev)`), piece by piece. */
  function NonEmptyNames(devs: seq<string>): set<string>
    decreases |devs|
  {
    if devs == [] then {}
    else NonEmptyNames(devs[..|devs| - 1]) + (if devs[|devs| - 1] != [] then {devs[|devs| - 1]} else {})
  }

  /** A piece is kept exactly when it is listed and not empty. */
  lemma {:induction false} NonEmptyNamesIff(devs: seq<string>, d: string)
    ensures d in NonEmptyNames(devs) <==> d in devs && d != []
    decreases |devs|
  {
    if devs != [] {
      var init := devs[..|devs| - 1];
      NonEmptyNamesIff(init, d);
      assert devs == init + [devs[|devs| - 1]];
    }
  }

  /** Every listed name is one the developer filter matches, so picking it keeps the task. */
  lemma NamesOfMatch(developer: string, name: string)
    ensures name in NamesOf(developer) <==>
              DeveloperMatches(developer, name) && (name == [] ==> ',' !in developer)
  {
    if developer != [] && ',' in developer {
      NonEmptyNamesIff(TrimAll(Split(developer, ',')), name);
    }
  }

  /**
   * Every non-empty name the developer list offers, once chosen as the
   * developer filter, keeps at least one task.
   */
  lemma OfferedNameKeepsTask(tasks: seq<Task>, d: string)
    requires d in DeveloperNames(tasks) && d != []
    ensures exists i :: 0 <= i < |tasks| && PassesDeveloper(tasks[i], Some(d))
  {
    DeveloperNamesIff(tasks, d);
    var i :| 0 <= i < |tasks| && d in NamesOf(tasks[i].developer);
    NamesOfMatch(tasks[i].developer, d);
  }

  /** The union of `f(x)` over the elements of `s`, element by element. */
  function UnionOf<T>(s: seq<T>, f: T -> set<string>): set<string>
    decreases |s|
  {
    if s == [] then {}
    else UnionOf(s[..|s| - 1], f) + f(s[|s| - 1])
  }

  /** A name is in the union exactly when some element contributes it. */
  lemma {:induction false} UnionOfIff<T>(s: seq<T>, f: T -> set<string>, d: string)
    ensures d in UnionOf(s, f) <==> exists i :: 0 <= i < |s| && d in f(s[i])
    decreases |s|
  {
    if s != [] {
      var n := |s| - 1;
      var init := s[..n];
      UnionOfIff(init, f, d);
      if d in UnionOf(init, f) {
        var i :| 0 <= i < |init| && d in f(init[i]);
        assert init[i] == s[i];
      } else if d !in f(s[n]) {
        forall i | 0 <= i < |s|
          ensures d !in f(s[i])
        {
          if i < n {
            assert init[i] == s[i];
          }
        }
      }
    }
  }

  /** The names all tasks contribute: the `Set` the getter fills. */
  function DeveloperNames(tasks: seq<Task>): set<string> {
    UnionOf(tasks, (t: Task) => NamesOf(t.developer))
  }

  /** A name is collected exactly when some task contributes it. */
  lemma DeveloperNamesIff(tasks: seq<Task>, d: string)
    ensures d in DeveloperNames(tasks) <==> exists i :: 0 <= i < |tasks| && d in NamesOf(tasks[i].developer)
  {
    UnionOfIff(tasks, (t: Task) => NamesOf(t.developer), d);
  }

  /** Strictly ascending in code-point order, hence without repeats. */
  predicate StrictlySorted(s: seq<string>) {
    forall i, j :: 0 <= i < j < |s| ==> Less(s[i], s[j])
  }

  /** A name below the head of a sorted list is below all of it. */
  lemma BelowAll(x: string, s: seq<string>)
    requires StrictlySorted(s) && s != [] && Less(x, s[0])
    ensures forall j :: 0 <= j < |s| ==> Less(x, s[j])
  {
    forall j | 0 < j < |s| {
      LessTransitive(x, s[0], s[j]);
    }
  }

  /** Puts a new name into its place in a sorted list. */
  function InsertName(x: string, s: seq<string>): (r: seq<string>)
    requires StrictlySorted(s) && x !in s
    ensures StrictlySorted(r)
    ensures forall d :: d in r <==> d == x || d in s
    ensures |r| == |s| + 1
    decreases |s|
  {
    if s == [] then [x]
    else if Less(x, s[0]) then
      BelowAll(x, s);
      [x] + s
    else
      LessTotal(x, s[0]);
      var rest := InsertName(x, s[1..]);
      assert forall k :: 0 <= k < |rest| ==> rest[k] == x || rest[k] in s[1..];
      [s[0]] + rest
  }

  /** The inner `forEach`: adds each non-empty piece to the set. */
  method AddPieces(developers: set<string>, devs: seq<string>) returns (r: set<string>)
    ensures r == developers + NonEmptyNames(devs)
  {
    r := developers;
    var j := 0;
    while j < |devs|
      invariant 0 <= j <= |devs|
      invariant r == developers + NonEmptyNames(devs[..j])
    {
      assert devs[..j + 1][..j] == devs[..j];
      if devs[j] != [] {
        r := r + {devs[j]};
      }
      j := j + 1;
    }
    assert devs[..j] == devs;
  }

  /** The outer `forEach` that fills the `Set`: the names of every task. */
  method CollectDevelopers(tasks: seq<Task>) returns (developers: set<string>)
    ensures developers == DeveloperNames(tasks)
  {
    developers := {};
    var i := 0;
    while i < |tasks|
      invariant 0 <= i <= |tasks|
      invariant developers == DeveloperNames(tasks[..i])
    {
      assert tasks[..i + 1][..i] == tasks[..i];
      assert DeveloperNames(tasks[..i + 1]) == DeveloperNames(tasks[..i]) + NamesOf(tasks[i].developer);
      var developer := tasks[i].developer;
      if developer != [] {
        if ',' in developer {
          developers := AddPieces(developers, TrimAll(Split(developer, ',')));
        } else {
          developers := developers + {Trim(developer)};
        }
      }
      i := i + 1;
    }
    assert tasks[..i] == tasks;
  }

  /** `Array.from(set).sort()`: the names of the set, each once, in ascending order. */
  method SortNames(names: set<string>) returns (r: seq<string>)
    ensures StrictlySorted(r)
    ensures forall d :: d in r <==> d in names
  {
    r := [];
    var rest := names;
    while rest != {}
      invariant rest <= names
      invariant StrictlySorted(r)
      invariant forall d :: d in r <==> d in names && d !in rest
      decreases rest
    {
      var x :| x in rest;
      r := InsertName(x, r);
      rest := rest - {x};
    }
  }

  /** A strictly sorted list repeats no name. */
  lemma NoRepeats(r: seq<string>)
    requires StrictlySorted(r)
    ensures forall i, j :: 0 <= i < j < |r| ==> r[i] != r[j]
  {
    forall i, j | 0 <= i < j < |r|
      ensures r[i] != r[j]
    {
      LessIrreflexive(r[i]);
    }
  }

  /**
   * `uniqueDevelopers`: the names every task contributes, each once, in
   * ascending order.
   */
  method UniqueDevelopers(tasks: seq<Task>) returns (r: seq<string>)
    ensures StrictlySorted(r)
    ensures forall i, j :: 0 <= i < j < |r| ==> r[i] != r[j]
    ensures forall d :: d in r <==> d in DeveloperNames(tasks)
  {
    var developers := CollectDevelopers(tasks);
    r := SortNames(developers);
    NoRepeats(r);
  }
}
