/** The task list (src/components/TaskList.tsx): the copy of the tasks it keeps for display,
    ordered newest first after the first update, and the choice between the loading skeleton,
    the empty state and the list. */
module TaskList {
  import opened Types

  /** Each task was created no earlier than every task after it. */
  predicate NewestFirst(s: seq<Task>) {
    forall i, j :: 0 <= i < j < |s| ==> s[i].createdAt >= s[j].createdAt
  }

  /** A task created no earlier than the head of an ordered list can go in front of it. */
  lemma PrependKeepsOrder(x: Task, r: seq<Task>)
    requires NewestFirst(r) && (r == [] || x.createdAt >= r[0].createdAt)
    ensures NewestFirst([x] + r)
  {
    var xr := [x] + r;
    forall i, j | 0 <= i < j < |xr| ensures xr[i].createdAt >= xr[j].createdAt {
      if i == 0 {
        assert xr[j] == r[j - 1];
        assert r[0].createdAt >= r[j - 1].createdAt;
      } else {
        assert xr[i] == r[i - 1] && xr[j] == r[j - 1];
      }
    }
  }

  /** The tail of an ordered list is ordered. */
  lemma TailKeepsOrder(s: seq<Task>)
    requires NewestFirst(s) && s != []
    ensures NewestFirst(s[1..])
  {
    forall i, j | 0 <= i < j < |s| - 1 ensures s[1..][i].createdAt >= s[1..][j].createdAt {
      assert s[1..][i] == s[i + 1] && s[1..][j] == s[j + 1];
    }
  }

  /** Places `t` in front of the first task created no later than it. Tasks created at the same
      time as `t` stay behind it, which is what keeps the sort stable. Nothing is lost or
      duplicated. */
  function Insert(t: Task, s: seq<Task>): (r: seq<Task>)
    ensures multiset(r) == multiset(s) + multiset{t}
    ensures |r| == |s| + 1
  {
    if s == [] || s[0].createdAt <= t.createdAt then
      [t] + s
    else
      var rest := Insert(t, s[1..]);
      assert multiset([s[0]] + rest) == multiset{s[0]} + multiset(s[1..]) + multiset{t};
      assert s == [s[0]] + s[1..];
      [s[0]] + rest
  }

  /** Inserting into an ordered list keeps it ordered, and puts in front either the new task
      or the old head. */
  lemma {:induction false} InsertKeepsOrder(t: Task, s: seq<Task>)
    requires NewestFirst(s)
    ensures var r := Insert(t, s);
      NewestFirst(r) && (r[0] == t || (s != [] && r[0] == s[0]))
  {
    if s == [] || s[0].createdAt <= t.createdAt {
      PrependKeepsOrder(t, s);
    } else {
      TailKeepsOrder(s);
      InsertKeepsOrder(t, s[1..]);
      var rest := Insert(t, s[1..]);
      assert s[0].createdAt >= rest[0].createdAt by {
        if rest[0] != t { assert rest[0] == s[1]; }
      }
      PrependKeepsOrder(s[0], rest);
    }
  }

  /** `[...tasks].sort((a, b) => b.createdAt - a.createdAt)`: a stable sort, newest first. The
      result is ordered and holds the same tasks. */
  function SortedNewestFirst(ts: seq<Task>): (r: seq<Task>)
    ensures NewestFirst(r)
    ensures multiset(r) == multiset(ts)
    ensures |r| == |ts|
  {
    if ts == [] then []
    else
      assert ts == [ts[0]] + ts[1..];
      InsertKeepsOrder(ts[0], SortedNewestFirst(ts[1..]));
      Insert(ts[0], SortedNewestFirst(ts[1..]))
  }

  /** Sorting a list that is already newest first leaves it as it is. */
  lemma {:induction false} SortKeepsOrderedList(ts: seq<Task>)
    requires NewestFirst(ts)
    ensures SortedNewestFirst(ts) == ts
  {
    if ts != [] {
      assert NewestFirst(ts[1..]);
      SortKeepsOrderedList(ts[1..]);
      assert ts == [ts[0]] + ts[1..];
    }
  }

  /** A sorted list holds each task exactly as often as the input does, so a list of tasks
      with distinct ids stays free of duplicates. */
  lemma SortKeepsMembers(ts: seq<Task>, t: Task)
    ensures t in SortedNewestFirst(ts) <==> t in ts
  {
    var r := SortedNewestFirst(ts);
    assert t in r <==> t in multiset(r);
    assert t in ts <==> t in multiset(ts);
  }

  /** The component's state: the displayed copy of the tasks and whether the first update is
      still to come. */
  class ListView {
    var localTasks: seq<Task>
    var isInitialLoad: bool

    constructor ()
      ensures localTasks == [] && isInitialLoad
    {
      localTasks := [];
      isInitialLoad := true;
    }

    /** The effect that runs when the `tasks` prop changes: the first run copies the tasks as
        they are, later runs copy them sorted newest first. */
    method OnTasksChanged(tasks: seq<Task>)
      modifies this
      ensures !isInitialLoad
      ensures old(isInitialLoad) ==> localTasks == tasks
      ensures !old(isInitialLoad) ==> localTasks == SortedNewestFirst(tasks)
      ensures multiset(localTasks) == multiset(tasks)
    {
      if isInitialLoad {
        localTasks := tasks;
        isInitialLoad := false;
        return;
      }
      localTasks := SortedNewestFirst(tasks);
    }
  }

  /** What the component renders. */
  datatype Screen = Skeleton | EmptyState | Items(shown: seq<Task>)

  /** The loading skeleton wins; with no tasks the empty state is shown; otherwise the
      displayed copy is listed, whatever it holds at that render. */
  function Render(loading: bool, tasks: seq<Task>, localTasks: seq<Task>): (s: Screen)
    ensures s == Skeleton <==> loading
    ensures s == EmptyState <==> !loading && tasks == []
    ensures s.Items? ==> s.shown == localTasks
  {
    if loading then Skeleton
    else if tasks == [] then EmptyState
    else Items(localTasks)
  }

  /** Once the effect has run on the current tasks and loading is over, the list shows exactly
      those tasks, newest first when they were already in that order or the effect had run
      before. */
  lemma SettledRender(tasks: seq<Task>, firstRun: bool)
    requires tasks != []
    requires firstRun ==> NewestFirst(tasks)
    ensures var s := Render(false, tasks, if firstRun then tasks else SortedNewestFirst(tasks));
      s.Items? && NewestFirst(s.shown) && multiset(s.shown) == multiset(tasks)
  {
  }
}
