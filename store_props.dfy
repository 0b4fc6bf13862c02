/**
 * Properties of the task engine that relate several operations, or that follow
 * from the contracts of the Store module for particular filter and sort states.
 */
module StoreProps {
  import opened Wrappers
  import opened Seqs
  import opened Text
  import opened Tasks
  import opened Store

  // ----- Filtering -----

  /** The default filter hides nothing: the filtered collection is the collection itself. */
  lemma DefaultFilterShowsAll(ts: seq<Task>)
    ensures Visible(ts, DefaultFilter) == ts
  {
    FilterKeepsAll(ts, MatchesFilter(DefaultFilter));
  }

  /** A filter with only a status passes exactly the tasks with that status. */
  lemma StatusOnlyMatches(t: Task, s: Status)
    ensures Matches(t, FilterState("", "", StatusName(s))) <==> t.status == s
  {
    StatusNameInjective(t.status, s);
  }

  lemma VisibleSingleton(t: Task, f: FilterState)
    ensures Visible([t], f) == if Matches(t, f) then [t] else []
  {
    assert [t][1..] == [];
  }

  /** With only a status filter, the number of visible tasks is that status's count in the stats. */
  lemma {:induction false} StatusViewCountIsStat(ts: seq<Task>, s: Status)
    ensures |Visible(ts, FilterState("", "", StatusName(s)))| == Tally(ts).Of(s)
    decreases |ts|
  {
    if |ts| > 0 {
      StatusViewCountIsStat(ts[..|ts| - 1], s);
      StatusViewCountStep(ts, s);
    }
  }

  /** The last task adds one to the view exactly when it adds one to its status's count. */
  lemma StatusViewCountStep(ts: seq<Task>, s: Status)
    requires |ts| > 0
    requires |Visible(ts[..|ts| - 1], FilterState("", "", StatusName(s)))| == Tally(ts[..|ts| - 1]).Of(s)
    ensures |Visible(ts, FilterState("", "", StatusName(s)))| == Tally(ts).Of(s)
  {
    VisibleLastCount(ts, s);
  }

  /** The last task of a collection is in a status view exactly when it has that status. */
  lemma VisibleLastCount(ts: seq<Task>, s: Status)
    requires |ts| > 0
    ensures |Visible(ts, FilterState("", "", StatusName(s)))|
      == |Visible(ts[..|ts| - 1], FilterState("", "", StatusName(s)))| + (if ts[|ts| - 1].status == s then 1 else 0)
  {
    var f := FilterState("", "", StatusName(s));
    var init, last := ts[..|ts| - 1], ts[|ts| - 1];
    assert ts == init + [last];
    FilterAppend(init, [last], MatchesFilter(f));
    VisibleSingleton(last, f);
    StatusOnlyMatches(last, s);
  }

  // ----- Sorting -----

  /** Sorting by `due`, in either order: every task with a deadline precedes every task without one. */
  lemma DatedBeforeUndated(xs: seq<Task>, st: SortState)
    requires st.key == "due" && InOrder(xs, st)
    ensures forall i, j :: 0 <= i < j < |xs| && HasDue(xs[j]) ==> HasDue(xs[i])
  {
  }

  /** Sorting by `due`: tasks with deadlines are ascending for order `asc`, descending for any other order. */
  lemma DatedInDueOrder(xs: seq<Task>, st: SortState)
    requires st.key == "due" && InOrder(xs, st)
    ensures forall i, j :: 0 <= i < j < |xs| && HasDue(xs[i]) && HasDue(xs[j]) ==>
      var di, dj := xs[i].due.value, xs[j].due.value;
      if st.order == Some("asc") then di == dj || LexLess(di, dj) else di == dj || LexLess(dj, di)
  {
    forall i, j | 0 <= i < j < |xs| && HasDue(xs[i]) && HasDue(xs[j])
      ensures var di, dj := xs[i].due.value, xs[j].due.value;
        if st.order == Some("asc") then di == dj || LexLess(di, dj) else di == dj || LexLess(dj, di)
    {
      LexLessTotal(xs[i].due.value, xs[j].due.value);
    }
  }

  /**
   * When both values are strings, the comparator answers 0 for equal values, -1 when `a`'s value
   * is below `b`'s for order `asc` (above it for any other order), and 1 the other way round.
   */
  lemma CompareByValue(a: Task, b: Task, st: SortState)
    requires st.key in {"id", "title", "tags", "status", "created_at", "updated_at"}
      || (st.key == "due" && HasDue(a) && HasDue(b))
    ensures var x, y := FieldValue(a, st.key).s, FieldValue(b, st.key).s;
      && (Compare(a, b, st) == 0 <==> x == y)
      && (Compare(a, b, st) == -1 <==> if st.order == Some("asc") then LexLess(x, y) else LexLess(y, x))
      && (Compare(a, b, st) == 1 <==> if st.order == Some("asc") then LexLess(y, x) else LexLess(x, y))
  {
    var x, y := FieldValue(a, st.key).s, FieldValue(b, st.key).s;
    LexLessTotal(x, y);
    LexLessAsymmetric(x, y);
    LexLessIrreflexive(x);
  }

  /**
   * Sorting by any other field of the task: the field's values are ascending for order `asc`
   * and descending for every other order.
   */
  lemma FieldInOrder(xs: seq<Task>, st: SortState)
    requires st.key in {"id", "title", "tags", "status", "created_at", "updated_at"} && InOrder(xs, st)
    ensures forall i, j :: 0 <= i < j < |xs| ==>
      var vi, vj := FieldValue(xs[i], st.key).s, FieldValue(xs[j], st.key).s;
      if st.order == Some("asc") then vi == vj || LexLess(vi, vj) else vi == vj || LexLess(vj, vi)
  {
    forall i, j | 0 <= i < j < |xs|
      ensures var vi, vj := FieldValue(xs[i], st.key).s, FieldValue(xs[j], st.key).s;
        if st.order == Some("asc") then vi == vj || LexLess(vi, vj) else vi == vj || LexLess(vj, vi)
    {
      LexLessTotal(FieldValue(xs[i], st.key).s, FieldValue(xs[j], st.key).s);
    }
  }

  /** The store's initial sort lists the most recently created task first. */
  lemma DefaultSortNewestFirst(xs: seq<Task>)
    requires InOrder(xs, DefaultSort)
    ensures forall i, j :: 0 <= i < j < |xs| ==> xs[i].createdAt == xs[j].createdAt || LexLess(xs[j].createdAt, xs[i].createdAt)
  {
    FieldInOrder(xs, DefaultSort);
    forall i, j | 0 <= i < j < |xs|
      ensures xs[i].createdAt == xs[j].createdAt || LexLess(xs[j].createdAt, xs[i].createdAt)
    {
      assert FieldValue(xs[i], "created_at").s == xs[i].createdAt;
      assert FieldValue(xs[j], "created_at").s == xs[j].createdAt;
    }
  }

  /** The task has no deadline, so sorting by `due` sends it after every dated task. */
  function Undated(t: Task): bool {
    !HasDue(t)
  }

  /** Inserting a dated task leaves the undated tasks of the sequence as they were. */
  lemma {:induction false} InsertDatedKeepsUndated(s: seq<Task>, x: Task, st: SortState)
    requires InOrder(s, st) && HasDue(x)
    ensures Filter(Insert(s, x, st), Undated) == Filter(s, Undated)
    decreases |s|
  {
    if |s| == 0 {
      assert Insert(s, x, st) == [x];
      assert [x][1..] == [];
    } else if Before(x, s[0], st) {
      assert Insert(s, x, st) == [x] + s;
      assert ([x] + s)[1..] == s;
    } else {
      var rest := Insert(s[1..], x, st);
      assert Insert(s, x, st) == [s[0]] + rest;
      InsertDatedKeepsUndated(s[1..], x, st);
      assert ([s[0]] + rest)[1..] == rest;
    }
  }

  /** An undated task is inserted at the end when sorting by `due`. */
  lemma InsertUndatedAtEnd(s: seq<Task>, x: Task, st: SortState)
    requires st.key == "due" && InOrder(s, st) && !HasDue(x)
    ensures Insert(s, x, st) == s + [x]
    ensures Filter(Insert(s, x, st), Undated) == Filter(s, Undated) + [x]
  {
    assert forall i :: 0 <= i < |s| ==> !Before(x, s[i], st);
    assert Insert(s, x, st) == s + [x];
    FilterSnoc(s, x, Undated);
  }

  /** Filtering a sequence with one more element that passes adds it at the end. */
  lemma FilterSnoc(s: seq<Task>, x: Task, p: Task -> bool)
    requires p(x)
    ensures Filter(s + [x], p) == Filter(s, p) + [x]
  {
    FilterAppend(s, [x], p);
    FilterSingleton(x, p);
  }


  /** Sorting by `due`, in either order, keeps the undated tasks in their collection order. */
  lemma {:induction false} UndatedKeepOrder(xs: seq<Task>, st: SortState)
    requires st.key == "due"
    ensures Filter(SortTasks(xs, st), Undated) == Filter(xs, Undated)
    decreases |xs|
  {
    if |xs| > 0 {
      var init, last := xs[..|xs| - 1], xs[|xs| - 1];
      var sorted := SortTasks(init, st);
      assert SortTasks(xs, st) == Insert(sorted, last, st);
      UndatedKeepOrder(init, st);
      FilterLast(xs, Undated);
      if HasDue(last) {
        InsertDatedKeepsUndated(sorted, last, st);
      } else {
        InsertUndatedAtEnd(sorted, last, st);
      }
    }
  }

  /** Two tasks where the second must precede the first come out swapped. */
  lemma SortPairSwaps(a: Task, b: Task, st: SortState)
    requires Before(b, a, st)
    ensures SortTasks([a, b], st) == [b, a]
  {
    assert [a, b][..1] == [a];
    assert SortTasks([a], st) == [a];
  }

  /** Sorting two dated tasks ascending by deadline puts the earlier deadline first. */
  lemma DueAscendingSwaps(a: Task, b: Task)
    requires HasDue(a) && HasDue(b) && LexLess(b.due.value, a.due.value)
    ensures SortTasks([a, b], SortState("due", Some("asc"))) == [b, a]
  {
    SortPairSwaps(a, b, SortState("due", Some("asc")));
  }

  /** The first of January sorts below the fifth, character by character. */
  lemma FirstBeforeFifth()
    ensures LexLess("2024-01-01", "2024-01-05")
  {
    LexLessAt("2024-01-01", "2024-01-05", 9);
  }

  /** Two deadlines sorted ascending come out earliest first. */
  lemma DueAscendingExample(a: Task, b: Task)
    requires a.due == Some("2024-01-05") && b.due == Some("2024-01-01")
    ensures SortTasks([a, b], SortState("due", Some("asc"))) == [b, a]
  {
    FirstBeforeFifth();
    DueAscendingSwaps(a, b);
  }

  /** A key that names no field of a task compares every pair as equal, so the sort keeps collection order. */
  lemma UnknownKeyKeepsOrder(xs: seq<Task>, st: SortState)
    requires st.key !in {"id", "title", "due", "tags", "status", "created_at", "updated_at"}
    ensures SortTasks(xs, st) == xs
  {
    assert InOrder(xs, st);
  }

  /** `setSort` on `key_order_rest` with `_`-free parts yields exactly that key and that order. */
  lemma ParseSortOfJoined(key: string, order: string, rest: seq<string>)
    requires '_' !in key && '_' !in order
    requires forall i :: 0 <= i < |rest| ==> '_' !in rest[i]
    ensures ParseSort(Join([key, order] + rest, "_")) == SortState(key, Some(order))
  {
    var parts := [key, order] + rest;
    forall i | 0 <= i < |parts|
      ensures '_' !in parts[i]
    {
      if i >= 2 {
        assert parts[i] == rest[i - 2];
      }
    }
    SplitJoin(parts, '_');
    assert Split(Join(parts, "_"), '_')[..2] == [key, order];
  }

  /** `setSort('due_asc')` sorts by deadline, ascending. */
  lemma DueAscValue()
    ensures ParseSort("due_asc") == SortState("due", Some("asc"))
  {
    assert Join(["due", "asc"] + [], "_") == "due_asc";
    ParseSortOfJoined("due", "asc", []);
  }

  /** `setSort('created_at_desc')` yields key `created` and order `at`, not `created_at` and `desc`. */
  lemma CreatedAtDescValue()
    ensures ParseSort("created_at_desc") == SortState("created", Some("at"))
  {
    var parts := ["created", "at", "desc"];
    assert Join(parts[2..], "_") == "desc";
    assert Join(parts[1..], "_") == "at_desc";
    assert Join(parts, "_") == "created_at_desc";
    assert parts == ["created", "at"] + ["desc"];
    ParseSortOfJoined("created", "at", ["desc"]);
  }

  /**
   * No task has a `created` field, so after `setSort('created_at_desc')` the sort keeps
   * collection order: oldest first, where newest first was asked for.
   */
  lemma CreatedAtDescKeepsOrder(xs: seq<Task>)
    ensures SortTasks(xs, ParseSort("created_at_desc")) == xs
  {
    CreatedAtDescValue();
    UnknownKeyKeepsOrder(xs, SortState("created", Some("at")));
  }

  // ----- Mutations -----

  /** Deleting distributes over concatenation: what survives keeps its original order. */
  lemma RemoveIdAppend(a: seq<Task>, b: seq<Task>, id: string)
    ensures RemoveId(a + b, id) == RemoveId(a, id) + RemoveId(b, id)
  {
    FilterAppend(a, b, OtherId(id));
  }

  /** Deleting the same id twice is deleting it once. */
  lemma RemoveIdIdempotent(ts: seq<Task>, id: string)
    ensures RemoveId(RemoveId(ts, id), id) == RemoveId(ts, id)
  {
  }

  /** Toggling twice restores a `todo` or `done` status; `doing` goes to `done` and then to `todo`. */
  lemma ToggleTwice(t: Task, now1: string, now2: string)
    ensures t.status != Doing ==> Toggled(Toggled(t, now1), now2).status == t.status
    ensures t.status == Doing ==> Toggled(t, now1).status == Done && Toggled(Toggled(t, now1), now2).status == Todo
  {
  }

  /** A toggle moves one task from its old status's count to its new status's count. */
  lemma ToggleMovesOneCount(ts: seq<Task>, i: nat, now: string, s: Status)
    requires i < |ts|
    ensures var t := Toggled(ts[i], now);
      Tally(ts[i := t]).Of(s) + (if s == ts[i].status then 1 else 0)
        == Tally(ts).Of(s) + (if s == t.status then 1 else 0)
  {
    var t := Toggled(ts[i], now);
    TallyCountsStatuses(ts, s);
    TallyCountsStatuses(ts[i := t], s);
    assert Statuses(ts[i := t]) == Statuses(ts)[i := t.status];
  }

  /** The tally of a one-task collection counts that task's status once. */
  lemma TallySingle(t: Task)
    ensures Tally([t]) == Bump(Stats(0, 0, 0), t.status)
  {
    assert [t][..0] == [];
  }

  /** Add the "Buy milk" task to an empty store, then take the stats. */
  method AddOnly(store: TaskStore, id: string, now: string) returns (stats: Stats)
    requires store.tasks == []
    modifies store
    ensures store.tasks == [Task(id, "Buy milk", Some("2024-01-10"), ["home", "errand"], Todo, now, now)]
    ensures stats == Tally(store.tasks)
  {
    store.AddTask("Buy milk", Some("2024-01-10"), ["home", "errand"], id, now);
    stats := store.GetStats();
  }

  /** Toggle the only task of a store, then take the stats. */
  method ToggleOnly(store: TaskStore, id: string, now: string) returns (stats: Stats)
    requires |store.tasks| == 1 && store.tasks[0].id == id
    modifies store
    ensures store.tasks == [Toggled(old(store.tasks[0]), now)]
    ensures stats == Tally(store.tasks)
  {
    assert IndexOf(store.tasks, id) == Some(0);
    store.ToggleTaskStatus(id, now);
    stats := store.GetStats();
  }

  /** Delete the only task of a store, then take the stats. */
  method DeleteOnly(store: TaskStore, id: string) returns (stats: Stats)
    requires |store.tasks| == 1 && store.tasks[0].id == id
    modifies store
    ensures store.tasks == [] && stats == Stats(0, 0, 0)
  {
    store.DeleteTask(id);
    stats := store.GetStats();
  }

  /**
   * Add one task, toggle it twice, delete it, on a fresh store: the stats after each step
   * are 1 todo, then 1 done, then 1 todo again, then nothing.
   */
  method BuyMilkScenario(id: string, now1: string, now2: string, now3: string) returns (history: seq<Stats>)
    ensures history == [Stats(1, 0, 0), Stats(0, 0, 1), Stats(1, 0, 0), Stats(0, 0, 0)]
  {
    var store := new TaskStore([]);
    var added := AddOnly(store, id, now1);
    var t := store.tasks[0];
    TallySingle(t);
    assert added == Stats(1, 0, 0);
    var finished := ToggleOnly(store, id, now2);
    TallySingle(Toggled(t, now2));
    assert finished == Stats(0, 0, 1);
    var reopened := ToggleOnly(store, id, now3);
    TallySingle(Toggled(Toggled(t, now2), now3));
    assert reopened == Stats(1, 0, 0);
    var deleted := DeleteOnly(store, id);
    history := [added, finished, reopened, deleted];
  }
}
