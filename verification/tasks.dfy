/**
 * The entities the reconciler works on: remote (Todoist) tasks, local
 * (TaskWarrior) tasks, the local store keyed by the remote id, and the
 * per-task events a migration pass reports.
 */
module Tasks {
  import opened Wrappers

  type RemoteId = int
  type ProjectId = int
  type LabelId = int

  /** A Todoist due specification; it is only handed to the date and recurrence parsers. */
  datatype Due = Due(date: string, text: string)

  /** A Todoist item as the migrator reads it. `checked` is Todoist's 0/1 completion flag. */
  datatype RemoteTask = RemoteTask(
    id: RemoteId,
    content: string,
    projectId: ProjectId,
    priority: int,
    labels: seq<LabelId>,
    dateAdded: string,
    due: Option<Due>,
    checked: int)

  /** The source tests completion with `task['checked'] == 1`. */
  predicate IsChecked(t: RemoteTask) {
    t.checked == 1
  }

  /** TaskWarrior status, restricted to the two values the migrator compares against. */
  datatype Status = Pending | Completed

  /** The field payload `map_to_tw` assembles; `tid` is the `todoist_id` binding. */
  datatype Payload = Payload(
    tid: RemoteId,
    description: string,
    project: string,
    priority: string,
    entry: string,
    due: Option<string>,
    recur: Option<string>,
    tags: seq<string>)

  datatype LocalTask = LocalTask(status: Status, payload: Payload)

  /** The local store, looked up by `todoist_id`; a map holds at most one task per remote id. */
  type Store = map<RemoteId, LocalTask>

  function Lookup(s: Store, id: RemoteId): (r: Option<LocalTask>)
    ensures r.Some? <==> id in s
    ensures r.Some? ==> r.value == s[id]
  {
    if id in s then Some(s[id]) else None
  }

  /** Every local task carries, as `todoist_id`, the key it is stored under. */
  predicate Consistent(s: Store) {
    forall k :: k in s ==> s[k].payload.tid == k
  }

  /** One line of the migration progress report. */
  datatype Event = Created(id: RemoteId) | Matched(id: RemoteId) | Updated(id: RemoteId) | Closed(id: RemoteId)

  /** The remote ids a sequence of tasks mentions. */
  function Ids(ts: seq<RemoteTask>): (ids: set<RemoteId>)
    ensures forall i :: 0 <= i < |ts| ==> ts[i].id in ids
    ensures forall k :: k in ids ==> exists i :: 0 <= i < |ts| && ts[i].id == k
    decreases |ts|
  {
    if |ts| == 0 then {}
    else Ids(ts[..|ts| - 1]) + {ts[|ts| - 1].id}
  }
  /** A non-empty listing whose tasks all carry one id has exactly that id. */
  lemma IdsOfOne(ts: seq<RemoteTask>, k: RemoteId)
    requires |ts| > 0
    requires forall i :: 0 <= i < |ts| ==> ts[i].id == k
    ensures Ids(ts) == {k}
  {
    assert ts[0].id in Ids(ts);
  }

}
