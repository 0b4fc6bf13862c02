/**
 * The task engine of store.js: the filter, sort and tally logic as functions,
 * and the `TaskStore` class whose methods change the task collection, the
 * filter state and the sort state.
 */
module Store {
  import opened Wrappers
  import opened Seqs
  import opened Text
  import opened Tasks

  // ----- Filter state -----

  datatype FilterState = FilterState(keyword: string, tag: string, status: string)

  /** The keys one `setFilter` call supplies; `None` for a key the call leaves out. */
  datatype FilterPatch = FilterPatch(keyword: Option<string>, tag: Option<string>, status: Option<string>)

  const DefaultFilter: FilterState := FilterState("", "", "all")

  /** `{ ...filter, ...patch }`: supplied keys overwrite, the others are kept. */
  function MergeFilter(f: FilterState, p: FilterPatch): (g: FilterState)
    ensures g.keyword == (if p.keyword.Some? then p.keyword.value else f.keyword)
    ensures g.tag == (if p.tag.Some? then p.tag.value else f.tag)
    ensures g.status == (if p.status.Some? then p.status.value else f.status)
  {
    FilterState(p.keyword.GetOr(f.keyword), p.tag.GetOr(f.tag), p.status.GetOr(f.status))
  }

  /**
   * No keyword, or it occurs case-insensitively in the title or in some tag: the lowered
   * keyword is found at some offset of the lowered title or of some lowered tag.
   */
  function KeywordMatch(t: Task, keyword: string): (b: bool)
    ensures b <==>
      || keyword == ""
      || (exists k: nat :: OccursAt(Lower(t.title), Lower(keyword), k))
      || (exists g, k: nat :: g in t.tags && OccursAt(Lower(g), Lower(keyword), k))
  {
    ContainsIff(Lower(t.title), Lower(keyword));
    forall g | g in t.tags
      ensures Contains(Lower(g), Lower(keyword)) <==> exists k: nat :: OccursAt(Lower(g), Lower(keyword), k)
    {
      ContainsIff(Lower(g), Lower(keyword));
    }
    || keyword == ""
    || Contains(Lower(t.title), Lower(keyword))
    || exists g :: g in t.tags && Contains(Lower(g), Lower(keyword))
  }

  /** No tag filter, or some tag equals it case-insensitively. */
  function TagMatch(t: Task, tag: string): (b: bool)
    ensures tag in t.tags ==> b
    ensures t.tags == [] ==> (b <==> tag == "")
  {
    tag == "" || exists g :: g in t.tags && Lower(g) == Lower(tag)
  }

  /** The status filter is `all`, or it names the task's status. */
  function StatusMatch(t: Task, status: string): (b: bool)
    ensures status == "all" ==> b
    ensures status !in {"all", "todo", "doing", "done"} ==> !b
  {
    status == "all" || StatusName(t.status) == status
  }

  /** The filter predicate of `getFilteredAndSortedTasks`: all three conditions hold. */
  function Matches(t: Task, f: FilterState): (b: bool)
    ensures f.keyword == "" && f.tag == "" && f.status == "all" ==> b
    ensures b && f.status != "all" ==> StatusName(t.status) == f.status
  {
    KeywordMatch(t, f.keyword) && TagMatch(t, f.tag) && StatusMatch(t, f.status)
  }

  /** The filter predicate as the callback handed to `filter`. */
  function MatchesFilter(f: FilterState): Task -> bool {
    (t: Task) => Matches(t, f)
  }

  /** The tasks that pass the filter, in collection order. */
  function Visible(ts: seq<Task>, f: FilterState): (r: seq<Task>)
    ensures forall i :: 0 <= i < |r| ==> Matches(r[i], f)
    ensures forall t :: multiset(r)[t] == if Matches(t, f) then multiset(ts)[t] else 0
  {
    Filter(ts, MatchesFilter(f))
  }

  // ----- Sort state and comparator -----

  /** `order` is `None` when the sort value had no `_`, so that destructuring left it undefined. */
  datatype SortState = SortState(key: string, order: Option<string>)

  const DefaultSort: SortState := SortState("created_at", Some("desc"))

  /**
   * `const [key, order] = value.split('_')`: the key is the text before the first `_`
   * (all of `value` when there is none) and the order the text between the first and
   * the second `_`, or to the end.
   */
  function ParseSort(value: string): (st: SortState)
    ensures '_' !in st.key && StartsWith(value, st.key)
    ensures st.order.None? <==> |st.key| == |value|
    ensures st.order.Some? ==>
      && value[|st.key|] == '_'
      && '_' !in st.order.value
      && StartsWith(value[|st.key| + 1..], st.order.value)
      && (|st.key| + 1 + |st.order.value| == |value| || value[|st.key| + 1 + |st.order.value|] == '_')
  {
    var parts := Split(value, '_');
    JoinHead(parts, "_");
    if |parts| >= 2 then
      JoinHead(parts[1..], "_");
      assert value[|parts[0]| + 1..] == Join(parts[1..], "_");
      SortState(parts[0], Some(parts[1]))
    else
      SortState(parts[0], None)
  }

  /** A field value as the comparator sees it: a string, or `undefined`. */
  datatype Value = Undefined | Str(s: string)

  /** `task[key]`; a key that names no field of the record reads as `undefined`. */
  function FieldValue(t: Task, key: string): (v: Value)
    ensures key !in {"id", "title", "due", "tags", "status", "created_at", "updated_at"} ==> v == Undefined
    ensures key in {"id", "title", "tags", "status", "created_at", "updated_at"} ==> v.Str?
    ensures key == "due" ==> (v.Str? <==> t.due.Some?) && (Truthy(v) <==> HasDue(t))
  {
    if key == "id" then Str(t.id)
    else if key == "title" then Str(t.title)
    else if key == "due" then (if t.due.Some? then Str(t.due.value) else Undefined)
    else if key == "tags" then Str(Join(t.tags, ","))  // an array compares through its `join(',')`
    else if key == "status" then Str(StatusName(t.status))
    else if key == "created_at" then Str(t.createdAt)
    else if key == "updated_at" then Str(t.updatedAt)
    else Undefined
  }

  /** JavaScript truthiness of a field value: `undefined` and `''` are falsy, any other string truthy. */
  function Truthy(v: Value): (b: bool)
    ensures v == Undefined || v == Str("") ==> !b
    ensures v.Str? && |v.s| > 0 ==> b
  {
    v.Str? && v.s != ""
  }

  /** `a < b`: only two strings compare; `undefined` is neither below nor above anything. */
  function ValueLess(a: Value, b: Value): (less: bool)
    ensures a == Undefined || b == Undefined ==> !less
    ensures less ==> a != b
  {
    a.Str? && b.Str? && LexLess(a.s, b.s)
  }

  /** The comparator passed to `Array.prototype.sort`. */
  function Compare(a: Task, b: Task, st: SortState): (c: int)
    ensures c in {-1, 0, 1}
    ensures st.key == "due" && !HasDue(a) ==> c == 1
    ensures st.key == "due" && HasDue(a) && !HasDue(b) ==> c == -1
  {
    var va := FieldValue(a, st.key);
    var vb := FieldValue(b, st.key);
    if st.key == "due" && !Truthy(va) then 1
    else if st.key == "due" && !Truthy(vb) then -1
    else if ValueLess(va, vb) then (if st.order == Some("asc") then -1 else 1)
    else if ValueLess(vb, va) then (if st.order == Some("asc") then 1 else -1)
    else 0
  }

  /** The comparator asks for `a` to be placed before `b`. */
  predicate Before(a: Task, b: Task, st: SortState) {
    Compare(a, b, st) < 0
  }

  lemma BeforeIrreflexive(a: Task, st: SortState)
    ensures !Before(a, a, st)
  {
    var v := FieldValue(a, st.key);
    if v.Str? {
      LexLessIrreflexive(v.s);
    }
  }

  lemma BeforeTransitive(a: Task, b: Task, c: Task, st: SortState)
    ensures Before(a, b, st) && Before(b, c, st) ==> Before(a, c, st)
  {
    var va, vb, vc := FieldValue(a, st.key), FieldValue(b, st.key), FieldValue(c, st.key);
    if va.Str? && vb.Str? && vc.Str? {
      if LexLess(va.s, vb.s) && LexLess(vb.s, vc.s) {
        LexLessTransitive(va.s, vb.s, vc.s);
      }
      if LexLess(vc.s, vb.s) && LexLess(vb.s, va.s) {
        LexLessTransitive(vc.s, vb.s, va.s);
      }
      LexLessAsymmetric(va.s, vc.s);
    }
  }

  /** No two elements stand in the wrong order: a later one is never asked to come before an earlier one. */
  predicate InOrder(xs: seq<Task>, st: SortState) {
    forall i, j :: 0 <= i < j < |xs| ==> !Before(xs[j], xs[i], st)
  }

  /** Putting `y` in front of an ordered sequence keeps it in order when nothing in it must precede `y`. */
  lemma ConsInOrder(y: Task, rest: seq<Task>, st: SortState)
    requires InOrder(rest, st)
    requires forall k :: 0 <= k < |rest| ==> !Before(rest[k], y, st)
    ensures InOrder([y] + rest, st)
  {
  }

  /** In an ordered sequence nothing after the head must precede it. */
  lemma HeadFirst(s: seq<Task>, st: SortState)
    requires |s| > 0 && InOrder(s, st)
    ensures forall e :: e in s[1..] ==> !Before(e, s[0], st)
  {
    forall e | e in s[1..] ensures !Before(e, s[0], st) {
      var m :| 0 <= m < |s| - 1 && s[1..][m] == e;
      assert s[m + 1] == e;
    }
  }

  /** `x` may go in front of an ordered sequence whose head it must precede. */
  lemma FrontInOrder(x: Task, s: seq<Task>, st: SortState)
    requires |s| > 0 && InOrder(s, st) && Before(x, s[0], st)
    ensures InOrder([x] + s, st)
  {
    forall k | 0 <= k < |s|
      ensures !Before(s[k], x, st)
    {
      BeforeTransitive(s[k], x, s[0], st);
      BeforeIrreflexive(s[0], st);
    }
    ConsInOrder(x, s, st);
  }

  /** The head of an ordered sequence may stay in front when `x` does not precede it. */
  lemma HeadStaysInOrder(s: seq<Task>, x: Task, rest: seq<Task>, st: SortState)
    requires |s| > 0 && InOrder(s, st) && !Before(x, s[0], st)
    requires InOrder(rest, st) && multiset(rest) == multiset(s[1..]) + multiset{x}
    ensures InOrder([s[0]] + rest, st)
  {
    HeadFirst(s, st);
    forall k | 0 <= k < |rest|
      ensures !Before(rest[k], s[0], st)
    {
      assert rest[k] in multiset(rest);
    }
    ConsInOrder(s[0], rest, st);
  }

  /** Places `x` in front of the first element it must precede. */
  function Insert(s: seq<Task>, x: Task, st: SortState): (r: seq<Task>)
    requires InOrder(s, st)
    ensures multiset(r) == multiset(s) + multiset{x}
    ensures InOrder(r, st)
    ensures (forall i :: 0 <= i < |s| ==> !Before(x, s[i], st)) ==> r == s + [x]
    decreases |s|
  {
    if |s| == 0 then [x]
    else if Before(x, s[0], st) then
      FrontInOrder(x, s, st);
      [x] + s
    else
      var rest := Insert(s[1..], x, st);
      InsertBehindHead(s, x, rest, st);
      [s[0]] + rest
  }

  /** When `x` need not precede the head, the head stays first and `x` goes into the tail. */
  lemma InsertBehindHead(s: seq<Task>, x: Task, rest: seq<Task>, st: SortState)
    requires |s| > 0 && InOrder(s, st) && !Before(x, s[0], st)
    requires InOrder(rest, st) && multiset(rest) == multiset(s[1..]) + multiset{x}
    requires (forall i :: 0 <= i < |s[1..]| ==> !Before(x, s[1..][i], st)) ==> rest == s[1..] + [x]
    ensures multiset([s[0]] + rest) == multiset(s) + multiset{x}
    ensures InOrder([s[0]] + rest, st)
    ensures (forall i :: 0 <= i < |s| ==> !Before(x, s[i], st)) ==> [s[0]] + rest == s + [x]
  {
    HeadStaysInOrder(s, x, rest, st);
    HeadThenMultiset(s, x, rest);
    InsertBehindHeadAtEnd(s, x, rest, st);
  }

  /** If `x` precedes nothing in `s`, it precedes nothing in its tail, so it lands at the end. */
  lemma InsertBehindHeadAtEnd(s: seq<Task>, x: Task, rest: seq<Task>, st: SortState)
    requires |s| > 0
    requires (forall i :: 0 <= i < |s[1..]| ==> !Before(x, s[1..][i], st)) ==> rest == s[1..] + [x]
    ensures (forall i :: 0 <= i < |s| ==> !Before(x, s[i], st)) ==> [s[0]] + rest == s + [x]
  {
    if forall i :: 0 <= i < |s| ==> !Before(x, s[i], st) {
      assert forall i :: 0 <= i < |s[1..]| ==> s[1..][i] == s[i + 1];
      HeadThenSnoc(s, x);
    }
  }

  /**
   * The sorted view: a permutation of `xs` with no pair in the wrong order. Like
   * JavaScript's stable sort, it leaves a sequence that is already in order unchanged.
   */
  function SortTasks(xs: seq<Task>, st: SortState): (r: seq<Task>)
    ensures multiset(r) == multiset(xs)
    ensures InOrder(r, st)
    ensures InOrder(xs, st) ==> r == xs
    decreases |xs|
  {
    if |xs| == 0 then []
    else
      var init, last := xs[..|xs| - 1], xs[|xs| - 1];
      assert xs == init + [last];
      assert InOrder(xs, st) ==> forall i :: 0 <= i < |init| ==> !Before(last, init[i], st) by {
        if InOrder(xs, st) {
          forall i | 0 <= i < |init| ensures !Before(last, init[i], st) {
            assert init[i] == xs[i];
          }
        }
      }
      Insert(SortTasks(init, st), last, st)
  }

  // ----- Statistics -----

  datatype Stats = Stats(todo: nat, doing: nat, done: nat) {
    /** The count kept for one status. */
    function Of(s: Status): nat {
      match s
      case Todo => todo
      case Doing => doing
      case Done => done
    }
  }

  /** `acc[status]++` */
  function Bump(acc: Stats, s: Status): (r: Stats)
    ensures r.Of(s) == acc.Of(s) + 1
    ensures forall o :: o != s ==> r.Of(o) == acc.Of(o)
  {
    match s
    case Todo => acc.(todo := acc.todo + 1)
    case Doing => acc.(doing := acc.doing + 1)
    case Done => acc.(done := acc.done + 1)
  }

  /** `reduce` over the collection, from the left, starting at all zeros. */
  function Tally(ts: seq<Task>): (stats: Stats)
    ensures stats.todo + stats.doing + stats.done == |ts|
    decreases |ts|
  {
    if |ts| == 0 then Stats(0, 0, 0)
    else Bump(Tally(ts[..|ts| - 1]), ts[|ts| - 1].status)
  }

  /** The status of every task, in collection order. */
  function Statuses(ts: seq<Task>): (ss: seq<Status>)
    ensures |ss| == |ts| && forall i :: 0 <= i < |ts| ==> ss[i] == ts[i].status
  {
    seq(|ts|, i requires 0 <= i < |ts| => ts[i].status)
  }

  /** Each count of the tally is the number of tasks with that status. */
  lemma {:induction false} TallyCountsStatuses(ts: seq<Task>, s: Status)
    ensures Tally(ts).Of(s) == multiset(Statuses(ts))[s]
    decreases |ts|
  {
    if |ts| > 0 {
      var init := ts[..|ts| - 1];
      TallyCountsStatuses(init, s);
      StatusesSnoc(ts);
    }
  }

  /** The statuses of a collection are those of its front, then its last task's. */
  lemma StatusesSnoc(ts: seq<Task>)
    requires |ts| > 0
    ensures Statuses(ts) == Statuses(ts[..|ts| - 1]) + [ts[|ts| - 1].status]
  {
  }

  // ----- Lookup, update, removal -----

  /** `findIndex(t => t.id === id)`: the position of the first task with that id. */
  function IndexOf(ts: seq<Task>, id: string): (r: Option<nat>)
    ensures r.None? <==> forall i :: 0 <= i < |ts| ==> ts[i].id != id
    ensures r.Some? ==> r.value < |ts| && ts[r.value].id == id
    ensures r.Some? ==> forall j :: 0 <= j < r.value ==> ts[j].id != id
    decreases |ts|
  {
    if |ts| == 0 then None
    else if ts[0].id == id then Some(0)
    else
      match IndexOf(ts[1..], id)
      case None => None
      case Some(k) => Some(k + 1)
  }

  /** The fields one `updateTask` call supplies besides the id; `None` for a field it leaves out. */
  datatype TaskPatch = TaskPatch(
    id: string,
    title: Option<string>,
    due: Option<Option<string>>,
    tags: Option<seq<string>>,
    status: Option<Status>)

  /** `{ ...task, ...patch, updated_at: now }` */
  function Merge(t: Task, p: TaskPatch, now: string): (r: Task)
    ensures r.id == p.id && r.createdAt == t.createdAt && r.updatedAt == now
    ensures r.title == (if p.title.Some? then p.title.value else t.title)
    ensures r.due == (if p.due.Some? then p.due.value else t.due)
    ensures r.tags == (if p.tags.Some? then p.tags.value else t.tags)
    ensures r.status == (if p.status.Some? then p.status.value else t.status)
  {
    Task(p.id, p.title.GetOr(t.title), p.due.GetOr(t.due), p.tags.GetOr(t.tags),
         p.status.GetOr(t.status), t.createdAt, now)
  }

  /** The record after `toggleTaskStatus`: `done` becomes `todo`, anything else `done`. */
  function Toggled(t: Task, now: string): (r: Task)
    ensures r.status == (if t.status == Done then Todo else Done)
    ensures r == t.(status := r.status, updatedAt := now)
  {
    t.(status := if t.status == Done then Todo else Done, updatedAt := now)
  }

  /** The callback `task => task.id !== id`. */
  function OtherId(id: string): Task -> bool {
    (t: Task) => t.id != id
  }

  /** `tasks.filter(task => task.id !== id)` */
  function RemoveId(ts: seq<Task>, id: string): (r: seq<Task>)
    ensures forall i :: 0 <= i < |r| ==> r[i].id != id
    ensures forall t :: multiset(r)[t] == if t.id != id then multiset(ts)[t] else 0
    ensures (forall i :: 0 <= i < |ts| ==> ts[i].id != id) ==> r == ts
  {
    if forall i :: 0 <= i < |ts| ==> ts[i].id != id then
      FilterKeepsAll(ts, OtherId(id));
      Filter(ts, OtherId(id))
    else
      Filter(ts, OtherId(id))
  }

  /** Deleting keeps ids unique: what remains is a subsequence of the collection. */
  lemma {:induction false} RemoveIdKeepsUnique(ts: seq<Task>, id: string)
    requires UniqueIds(ts)
    ensures UniqueIds(RemoveId(ts, id))
    decreases |ts|
  {
    if |ts| > 0 {
      var rest := RemoveId(ts[1..], id);
      RemoveIdKeepsUnique(ts[1..], id);
      RemoveIdHead(ts, id);
      if ts[0].id != id {
        forall k | 0 <= k < |rest|
          ensures rest[k].id != ts[0].id
        {
          assert rest[k] in multiset(rest);
          assert rest[k] in ts[1..];
        }
        UniqueIdsCons(ts[0], rest);
      }
    }
  }

  /** Deleting looks at the head first, then at the rest. */
  lemma RemoveIdHead(ts: seq<Task>, id: string)
    requires |ts| > 0
    ensures RemoveId(ts, id) == (if ts[0].id != id then [ts[0]] else []) + RemoveId(ts[1..], id)
  {
  }

  /** A task whose id is not among those of a collection with unique ids may go in front. */
  lemma UniqueIdsCons(t: Task, rest: seq<Task>)
    requires UniqueIds(rest)
    requires forall k :: 0 <= k < |rest| ==> rest[k].id != t.id
    ensures UniqueIds([t] + rest)
  {
    var ts := [t] + rest;
    forall i, j | 0 <= i < j < |ts|
      ensures ts[i].id != ts[j].id
    {
      assert ts[j] == rest[j - 1];
      if i > 0 {
        assert ts[i] == rest[i - 1];
      }
    }
  }

  // ----- The store -----

  class TaskStore {
    var tasks: seq<Task>
    var filter: FilterState
    var sort: SortState
    /** The collection most recently handed to `repository.saveAll`, or what storage held at start. */
    ghost var persisted: seq<Task>

    /** A store over a repository whose slot holds `stored`; nothing is loaded until `Init`. */
    constructor (ghost stored: seq<Task>)
      ensures tasks == [] && filter == DefaultFilter && sort == DefaultSort
      ensures persisted == stored
    {
      tasks := [];
      filter := DefaultFilter;
      sort := DefaultSort;
      persisted := stored;
    }

    /** `init()`: `loaded` is what `repository.getAll()` returned: the stored collection, or `[]` when the slot is empty or unreadable. */
    method Init(loaded: seq<Task>)
      requires loaded == persisted || loaded == []
      modifies this
      ensures tasks == loaded
      ensures filter == old(filter) && sort == old(sort) && persisted == old(persisted)
    {
      tasks := loaded;
    }

    /** The filtered tasks in sorted order; reads the state and changes nothing. */
    function GetFilteredAndSortedTasks(): (view: seq<Task>)
      reads this
      ensures forall t :: multiset(view)[t] == if Matches(t, filter) then multiset(tasks)[t] else 0
      ensures InOrder(view, sort)
      ensures InOrder(Visible(tasks, filter), sort) ==> view == Visible(tasks, filter)
    {
      SortTasks(Visible(tasks, filter), sort)
    }

    /** `find`: the first task with that id, if any. */
    function GetTaskById(id: string): (r: Option<Task>)
      reads this
      ensures r.None? <==> forall i :: 0 <= i < |tasks| ==> tasks[i].id != id
      ensures r.Some? ==> r.value.id == id
      ensures r.Some? ==> exists i :: 0 <= i < |tasks| && tasks[i] == r.value && forall j :: 0 <= j < i ==> tasks[j].id != id
    {
      match IndexOf(tasks, id)
      case None => None
      case Some(i) => Some(tasks[i])
    }

    /** The number of tasks with each status, over the whole collection. */
    function GetStats(): (s: Stats)
      reads this
      ensures forall st :: s.Of(st) == multiset(Statuses(tasks))[st]
      ensures s.todo + s.doing + s.done == |tasks|
    {
      forall st ensures Tally(tasks).Of(st) == multiset(Statuses(tasks))[st] {
        TallyCountsStatuses(tasks, st);
      }
      Tally(tasks)
    }

    /** The whole collection in storage order, whatever the filter and sort state. */
    function GetAllTasks(): (all: seq<Task>)
      reads this
      ensures all == tasks
    {
      tasks
    }

    method SetFilter(p: FilterPatch)
      modifies this
      ensures filter == MergeFilter(old(filter), p)
      ensures tasks == old(tasks) && sort == old(sort) && persisted == old(persisted)
    {
      filter := MergeFilter(filter, p);
    }

    method SetSort(value: string)
      modifies this
      ensures sort == ParseSort(value)
      ensures tasks == old(tasks) && filter == old(filter) && persisted == old(persisted)
    {
      sort := ParseSort(value);
    }

    /** `freshId` and `now` stand for `crypto.randomUUID()` and `new Date().toISOString()`. */
    method AddTask(title: string, due: Option<string>, tags: seq<string>, freshId: string, now: string)
      requires forall i :: 0 <= i < |tasks| ==> tasks[i].id != freshId
      modifies this
      ensures tasks == old(tasks) + [Task(freshId, title, due, tags, Todo, now, now)]
      ensures GetTaskById(freshId) == Some(Task(freshId, title, due, tags, Todo, now, now))
      ensures UniqueIds(old(tasks)) ==> UniqueIds(tasks)
      ensures persisted == tasks
      ensures filter == old(filter) && sort == old(sort)
    {
      ghost var before := tasks;
      tasks := tasks + [Task(freshId, title, due, tags, Todo, now, now)];
      persisted := tasks;
      assert tasks[|before|].id == freshId;
      assert forall i :: 0 <= i < |before| ==> tasks[i] == before[i];
    }

    method UpdateTask(p: TaskPatch, now: string)
      modifies this
      ensures IndexOf(old(tasks), p.id).None? ==> tasks == old(tasks) && persisted == old(persisted)
      ensures IndexOf(old(tasks), p.id).Some? ==>
        var i := IndexOf(old(tasks), p.id).value;
        && tasks == old(tasks)[i := Merge(old(tasks)[i], p, now)]
        && tasks[i].id == old(tasks)[i].id
        && persisted == tasks
      ensures UniqueIds(old(tasks)) ==> UniqueIds(tasks)
      ensures filter == old(filter) && sort == old(sort)
    {
      var index := IndexOf(tasks, p.id);
      if index.Some? {
        tasks := tasks[index.value := Merge(tasks[index.value], p, now)];
        persisted := tasks;
      }
    }

    method DeleteTask(id: string)
      modifies this
      ensures tasks == RemoveId(old(tasks), id)
      ensures (forall i :: 0 <= i < |old(tasks)| ==> old(tasks)[i].id != id) ==> tasks == old(tasks)
      ensures UniqueIds(old(tasks)) ==> UniqueIds(tasks)
      ensures persisted == tasks
      ensures filter == old(filter) && sort == old(sort)
    {
      if UniqueIds(tasks) {
        RemoveIdKeepsUnique(tasks, id);
      }
      tasks := RemoveId(tasks, id);
      persisted := tasks;
    }

    method ToggleTaskStatus(id: string, now: string)
      modifies this
      ensures IndexOf(old(tasks), id).None? ==> tasks == old(tasks) && persisted == old(persisted)
      ensures IndexOf(old(tasks), id).Some? ==>
        var i := IndexOf(old(tasks), id).value;
        && tasks == old(tasks)[i := Toggled(old(tasks)[i], now)]
        && persisted == tasks
      ensures UniqueIds(old(tasks)) ==> UniqueIds(tasks)
      ensures filter == old(filter) && sort == old(sort)
    {
      var index := IndexOf(tasks, id);
      if index.Some? {
        tasks := tasks[index.value := Toggled(tasks[index.value], now)];
        persisted := tasks;
      }
    }
  }
}
