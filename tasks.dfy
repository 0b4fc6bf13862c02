/** The task record that the store keeps and the CSV writer exports. */
module Tasks {
  import opened Wrappers

  datatype Status = Todo | Doing | Done

  /** The string a status is stored as, and compared with, in the task record. */
  function StatusName(s: Status): (name: string)
    ensures name in {"todo", "doing", "done"}
  {
    match s
    case Todo => "todo"
    case Doing => "doing"
    case Done => "done"
  }

  lemma StatusNameInjective(s: Status, t: Status)
    ensures StatusName(s) == StatusName(t) <==> s == t
  {
  }

  /**
   * One task. `due` is `None` when the record has no `due` value at all; a form that
   * leaves the date blank stores `Some("")`. Timestamps are ISO-8601 strings.
   */
  datatype Task = Task(
    id: string,
    title: string,
    due: Option<string>,
    tags: seq<string>,
    status: Status,
    createdAt: string,
    updatedAt: string)

  /** The task has a deadline: its `due` value is truthy (present and non-empty). */
  predicate HasDue(t: Task) {
    t.due.Some? && t.due.value != ""
  }

  /** `task.due || ''`: the deadline text, or the empty string when there is none. */
  function DueText(t: Task): (d: string)
    ensures HasDue(t) ==> d == t.due.value
    ensures !HasDue(t) ==> d == ""
  {
    if HasDue(t) then t.due.value else ""
  }

  /** The ids in use in a collection. */
  function Ids(ts: seq<Task>): set<string> {
    set t | t in ts :: t.id
  }

  /** No two tasks of the collection share an id. */
  predicate UniqueIds(ts: seq<Task>) {
    forall i, j :: 0 <= i < j < |ts| ==> ts[i].id != ts[j].id
  }
}
