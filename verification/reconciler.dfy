/**
 * The `migrate` command: for each remote task, look the local task up by
 * `todoist_id` and create it, create and close it, close it, update it, or
 * leave it alone. A pass is a fold of `Step` over the filtered task list.
 */
module Reconciler {
  import opened Wrappers
  import opened Tasks
  import opened FieldMapper
  import Gateways

  /** `close_if_needed`: close a local task that is pending while its remote task is checked. */
  function CloseIfNeeded(local: LocalTask, t: RemoteTask): (close: bool)
    ensures close <==> IsChecked(t) && local.status == Pending
    ensures local.status == Completed ==> !close
  {
    IsChecked(t) && local.status == Pending
  }

  /** The local task a remote task leaves behind, and the events it reports. */
  datatype Outcome = Outcome(task: LocalTask, events: seq<Event>)

  /** The local task after reconciling one remote task against what the store held. */
  function Reconcile(existing: Option<LocalTask>, t: RemoteTask, data: Payload): (r: Outcome)
    // An unmapped task is created from the payload; a checked one ends completed.
    ensures existing.None? ==> r.task.payload == data
    ensures existing.None? ==> (r.task.status == Completed <==> IsChecked(t))
    // Closing takes precedence over updating and leaves the payload alone.
    ensures existing.Some? && existing.value.status == Pending && IsChecked(t) ==>
              r.task == LocalTask(Completed, existing.value.payload)
    ensures existing.Some? && existing.value.status == Pending && !IsChecked(t) ==>
              r.task == LocalTask(Pending, data)
    // A completed local task is terminal.
    ensures existing.Some? && existing.value.status == Completed ==>
              r.task == existing.value && r.events == [Matched(t.id)]
    // Completion never reverts, and a checked remote task always leaves a completed one.
    ensures r.task.status == Completed <==> IsChecked(t) || (existing.Some? && existing.value.status == Completed)
    ensures r.task.status == Pending ==> r.task.payload == data
    // Events: created exactly for an unmapped task; never both closed and updated.
    ensures forall k :: Created(k) in r.events <==> existing.None? && k == t.id
    ensures Closed(t.id) in r.events <==> IsChecked(t) && !(existing.Some? && existing.value.status == Completed)
    ensures Updated(t.id) in r.events <==> existing.Some? && existing.value.status == Pending && !IsChecked(t)
    ensures forall e :: e in r.events ==> e.id == t.id
  {
    match existing
    case None =>
      var created := LocalTask(Pending, data);
      if CloseIfNeeded(created, t) then Outcome(created.(status := Completed), [Created(t.id), Closed(t.id)])
      else Outcome(created, [Created(t.id)])
    case Some(local) =>
      if CloseIfNeeded(local, t) then Outcome(local.(status := Completed), [Matched(t.id), Closed(t.id)])
      else if local.status == Pending then Outcome(local.(payload := data), [Matched(t.id), Updated(t.id)])
      else Outcome(local, [Matched(t.id)])
  }

  /** The store and the event log so far. */
  datatype PassState = PassState(store: Store, events: seq<Event>)

  /** One iteration of the `migrate` loop. */
  function Step(env: Env, s: Store, t: RemoteTask): (r: PassState)
    requires CanMap(env, t)
    ensures r.store.Keys == s.Keys + {t.id}
    ensures forall k :: k in s && k != t.id ==> r.store[k] == s[k]
    ensures r.store[t.id] == Reconcile(Lookup(s, t.id), t, MapToTw(env, t)).task
    ensures forall k :: Created(k) in r.events <==> k == t.id && t.id !in s
  {
    var o := Reconcile(Lookup(s, t.id), t, MapToTw(env, t));
    PassState(s[t.id := o.task], o.events)
  }

  /** An unmapped remote task gets exactly one new local task, bound to its id. */
  lemma StepOnUnmapped(env: Env, s: Store, t: RemoteTask)
    requires CanMap(env, t)
    requires t.id !in s
    ensures var r := Step(env, s, t).store;
            && |r| == |s| + 1
            && r[t.id].payload.tid == t.id
            && r[t.id].payload.description == t.content
            && (r[t.id].status == Completed <==> IsChecked(t))
  {
    var r := Step(env, s, t).store;
    assert r.Keys == s.Keys + {t.id};
    assert |r.Keys| == |s.Keys| + 1;
  }

  /** The `migrate` loop over a task list, as a fold from the first task to the last. */
  function Pass(env: Env, s: Store, ts: seq<RemoteTask>): (r: PassState)
    requires AllMappable(env, ts)
    ensures r.store.Keys == s.Keys + Ids(ts)
    ensures forall k :: k in s && k !in Ids(ts) ==> r.store[k] == s[k]
    decreases |ts|
  {
    if |ts| == 0 then PassState(s, [])
    else
      PrefixMappable(env, ts, |ts| - 1);
      var prev := Pass(env, s, ts[..|ts| - 1]);
      var step := Step(env, prev.store, ts[|ts| - 1]);
      PassState(step.store, prev.events + step.events)
  }

  /** Every local task keeps, as `todoist_id`, the key it is stored under. */
  lemma {:induction false} PassKeepsBinding(env: Env, s: Store, ts: seq<RemoteTask>)
    requires AllMappable(env, ts)
    ensures Consistent(s) ==> Consistent(Pass(env, s, ts).store)
    decreases |ts|
  {
    if |ts| > 0 {
      PrefixMappable(env, ts, |ts| - 1);
      PassKeepsBinding(env, s, ts[..|ts| - 1]);
    }
  }

  /** A creation is reported exactly for the listed ids the store did not hold. */
  lemma {:induction false} PassCreationEvents(env: Env, s: Store, ts: seq<RemoteTask>)
    requires AllMappable(env, ts)
    ensures forall k :: Created(k) in Pass(env, s, ts).events <==> k in Ids(ts) && k !in s
    decreases |ts|
  {
    if |ts| > 0 {
      PrefixMappable(env, ts, |ts| - 1);
      PassCreationEvents(env, s, ts[..|ts| - 1]);
    }
  }

  /** A pass leaves every completed local task exactly as it was. */
  lemma PassKeepsCompleted(env: Env, s: Store, ts: seq<RemoteTask>)
    requires AllMappable(env, ts)
    ensures forall k :: k in s && s[k].status == Completed ==> Pass(env, s, ts).store[k] == s[k]
  {
    forall k | k in s && s[k].status == Completed
      ensures Pass(env, s, ts).store[k] == s[k]
    {
      PassPerKey(env, s, ts, k);
      FoldKeyCompletedStays(env, s[k], WithId(ts, k));
    }
  }

  /** What `migrate` reports: the early warning for an empty list, or the per-task log. */
  datatype Report = NoMatchingTasks | Migrated(log: seq<Event>)

  datatype PassResult = PassResult(store: Store, report: Report)

  /** `migrate` over already fetched tasks: nothing at all happens to an empty list. */
  function MigrateTasks(env: Env, s: Store, ts: seq<RemoteTask>): (r: PassResult)
    requires AllMappable(env, ts)
    ensures |ts| == 0 ==> r.store == s && r.report == NoMatchingTasks
    ensures |ts| > 0 ==> r.report.Migrated?
    ensures r.store.Keys == s.Keys + Ids(ts)
    ensures Consistent(s) ==> Consistent(r.store)
  {
    if |ts| == 0 then PassResult(s, NoMatchingTasks)
    else
      PassKeepsBinding(env, s, ts);
      var p := Pass(env, s, ts);
      PassResult(p.store, Migrated(p.events))
  }

  /** The `migrate` command: fetch with the two optional filters, then reconcile. */
  function Migrate(env: Env, s: Store, items: seq<RemoteTask>, filterTaskId: Option<int>, filterProjId: Option<int>): (r: PassResult)
    requires AllMappable(env, Gateways.GetTasks(items, filterTaskId, filterProjId))
    ensures var tasks := Gateways.GetTasks(items, filterTaskId, filterProjId);
            && (|tasks| == 0 ==> r == PassResult(s, NoMatchingTasks))
            && r.store.Keys == s.Keys + Ids(tasks)
  {
    MigrateTasks(env, s, Gateways.GetTasks(items, filterTaskId, filterProjId))
  }

  /** Without filters `migrate` reconciles every listed item. */
  lemma MigrateUnfiltered(env: Env, s: Store, items: seq<RemoteTask>)
    requires AllMappable(env, items)
    ensures Migrate(env, s, items, None, None) == MigrateTasks(env, s, items)
  {
    assert Gateways.GetTasks(items, None, None) == items;
  }

  /** A project table where projects 1 and 2 are each other's parent, and 3 is a root. */
  function LoopTable(): (projects: Gateways.ProjectTable)
    ensures !Gateways.Resolvable(projects, 1)
    ensures Gateways.Resolvable(projects, 3)
  {
    var projects := map[1 := Gateways.Project("Loop A", Some(2)), 2 := Gateways.Project("Loop B", Some(1)),
                        3 := Gateways.Project("Inbox", None)];
    assert Gateways.Ancestry(projects, 1, {1, 2}) == Err(Gateways.Cycle(1));
    assert Gateways.Ancestry(projects, 2, {1}) == Err(Gateways.Cycle(1));
    assert Gateways.Ancestry(projects, 3, {}) == Ok([3]);
    projects
  }

  /**
   * Only the listed tasks are mapped: a task the filter leaves out may sit on
   * a project cycle without stopping the migration of the selected one.
   */
  lemma FilteredOutCycleIsHarmless(env: Env, s: Store, looped: RemoteTask, plain: RemoteTask)
    requires env.projects == LoopTable()
    requires looped.id == 10 && looped.projectId == 1
    requires plain.id == 20 && plain.projectId == 3
    ensures !CanMap(env, looped)
    ensures AllMappable(env, Gateways.GetTasks([looped, plain], Some(20), None))
    ensures Migrate(env, s, [looped, plain], Some(20), None).store.Keys == s.Keys + {20}
  {
    var tasks := Gateways.GetTasks([looped, plain], Some(20), None);
    assert forall t :: t in tasks ==> t == plain;
    assert plain in tasks;
    assert forall i :: 0 <= i < |tasks| ==> tasks[i] in tasks;
    IdsOfOne(tasks, 20);
  }

  /** Extending the processed prefix by one task is one more `Step`. */
  lemma PassExtend(env: Env, s: Store, ts: seq<RemoteTask>, i: int)
    requires AllMappable(env, ts)
    requires 0 <= i < |ts|
    ensures AllMappable(env, ts[..i]) && AllMappable(env, ts[..i + 1])
    ensures var prev := Pass(env, s, ts[..i]);
            var step := Step(env, prev.store, ts[i]);
            Pass(env, s, ts[..i + 1]) == PassState(step.store, prev.events + step.events)
  {
    PrefixMappable(env, ts, i);
    PrefixMappable(env, ts, i + 1);
    var done := ts[..i + 1];
    assert done[..i] == ts[..i] && done[i] == ts[i];
  }

  /** The `migrate` loop as written, one task per iteration. */
  method RunMigration(env: Env, s: Store, ts: seq<RemoteTask>) returns (store: Store, report: Report)
    requires AllMappable(env, ts)
    ensures PassResult(store, report) == MigrateTasks(env, s, ts)
    ensures store.Keys == s.Keys + Ids(ts)
  {
    if |ts| == 0 {
      return s, NoMatchingTasks;
    }
    store := s;
    var log: seq<Event> := [];
    var i := 0;
    while i < |ts|
      invariant 0 <= i <= |ts|
      invariant AllMappable(env, ts[..i])
      invariant PassState(store, log) == Pass(env, s, ts[..i])
    {
      PassExtend(env, s, ts, i);
      var step := Step(env, store, ts[i]);
      store, log := step.store, log + step.events;
      i := i + 1;
    }
    assert ts[..i] == ts;
    report := Migrated(log);
  }

  // ---------------------------------------------------------------------
  // One remote id at a time
  // ---------------------------------------------------------------------

  /** The tasks of `ts` that carry remote id `k`, in order. */
  function WithId(ts: seq<RemoteTask>, k: RemoteId): (r: seq<RemoteTask>)
    ensures forall t :: t in r ==> t in ts && t.id == k
    ensures (forall i :: 0 <= i < |ts| ==> ts[i].id != k) ==> r == []
    decreases |ts|
  {
    if |ts| == 0 then []
    else if ts[|ts| - 1].id == k then WithId(ts[..|ts| - 1], k) + [ts[|ts| - 1]]
    else WithId(ts[..|ts| - 1], k)
  }

  /** Reconciling a sequence of tasks that all carry the same remote id. */
  function FoldKey(env: Env, e: Option<LocalTask>, f: seq<RemoteTask>): Option<LocalTask>
    requires AllMappable(env, f)
    decreases |f|
  {
    if |f| == 0 then e
    else
      var last := f[|f| - 1];
      Some(Reconcile(FoldKey(env, e, f[..|f| - 1]), last, MapToTw(env, last)).task)
  }

  /** A pass acts on each remote id independently of all the others. */
  lemma {:induction false} PassPerKey(env: Env, s: Store, ts: seq<RemoteTask>, k: RemoteId)
    requires AllMappable(env, ts)
    ensures AllMappable(env, WithId(ts, k))
    ensures Lookup(Pass(env, s, ts).store, k) == FoldKey(env, Lookup(s, k), WithId(ts, k))
    decreases |ts|
  {
    if |ts| > 0 {
      var pre := ts[..|ts| - 1];
      var last := ts[|ts| - 1];
      PrefixMappable(env, ts, |ts| - 1);
      PassPerKey(env, s, pre, k);
      var f := WithId(pre, k);
      if last.id == k {
        assert (f + [last])[..|f|] == f;
      }
    }
  }

  /** A completed local task absorbs every later remote task. */
  lemma {:induction false} FoldKeyCompletedStays(env: Env, x: LocalTask, f: seq<RemoteTask>)
    requires AllMappable(env, f)
    requires x.status == Completed
    ensures FoldKey(env, Some(x), f) == Some(x)
    decreases |f|
  {
    if |f| > 0 {
      FoldKeyCompletedStays(env, x, f[..|f| - 1]);
    }
  }

  /** Any checked task for the id leaves its local task completed. */
  lemma {:induction false} FoldKeyCheckedCompletes(env: Env, e: Option<LocalTask>, f: seq<RemoteTask>, i: int)
    requires AllMappable(env, f)
    requires 0 <= i < |f| && IsChecked(f[i])
    ensures FoldKey(env, e, f).Some? && FoldKey(env, e, f).value.status == Completed
    decreases |f|
  {
    if i < |f| - 1 {
      FoldKeyCheckedCompletes(env, e, f[..|f| - 1], i);
    }
  }

  /** With no checked task and no completed start, the last task's payload wins. */
  lemma {:induction false} FoldKeyUncheckedLastWins(env: Env, e: Option<LocalTask>, f: seq<RemoteTask>)
    requires AllMappable(env, f)
    requires |f| > 0
    requires forall i :: 0 <= i < |f| ==> !IsChecked(f[i])
    requires !(e.Some? && e.value.status == Completed)
    ensures FoldKey(env, e, f) == Some(LocalTask(Pending, MapToTw(env, f[|f| - 1])))
    decreases |f|
  {
    if |f| > 1 {
      FoldKeyUncheckedLastWins(env, e, f[..|f| - 1]);
    }
  }

  /** Reconciling the same tasks for one id twice changes nothing the second time. */
  lemma FoldKeyIdempotent(env: Env, e: Option<LocalTask>, f: seq<RemoteTask>)
    requires AllMappable(env, f)
    ensures FoldKey(env, FoldKey(env, e, f), f) == FoldKey(env, e, f)
  {
    var r := FoldKey(env, e, f);
    if |f| == 0 {
    } else if e.Some? && e.value.status == Completed {
      FoldKeyCompletedStays(env, e.value, f);
      FoldKeyCompletedStays(env, e.value, f);
    } else if i :| 0 <= i < |f| && IsChecked(f[i]) {
      FoldKeyCheckedCompletes(env, e, f, i);
      FoldKeyCompletedStays(env, r.value, f);
    } else {
      FoldKeyUncheckedLastWins(env, e, f);
      FoldKeyUncheckedLastWins(env, r, f);
    }
  }

  lemma StoreExtensionality(a: Store, b: Store)
    requires forall k :: Lookup(a, k) == Lookup(b, k)
    ensures a == b
  {
    assert a.Keys == b.Keys by {
      forall k ensures k in a <==> k in b {
        assert Lookup(a, k) == Lookup(b, k);
      }
    }
    forall k | k in a
      ensures a[k] == b[k]
    {
      assert Lookup(a, k) == Lookup(b, k);
    }
  }

  /**
   * Running `migrate` twice over the same tasks leaves the store as the
   * first run left it, even when a remote id occurs more than once.
   */
  lemma PassIdempotent(env: Env, s: Store, ts: seq<RemoteTask>)
    requires AllMappable(env, ts)
    ensures Pass(env, Pass(env, s, ts).store, ts).store == Pass(env, s, ts).store
  {
    var s1 := Pass(env, s, ts).store;
    var s2 := Pass(env, s1, ts).store;
    forall k
      ensures Lookup(s2, k) == Lookup(s1, k)
    {
      PassPerKey(env, s, ts, k);
      PassPerKey(env, s1, ts, k);
      FoldKeyIdempotent(env, Lookup(s, k), WithId(ts, k));
    }
    StoreExtensionality(s2, s1);
  }

  /**
   * After one pass every listed id is mapped, so a second pass creates no
   * local task and the store keeps exactly the same ids.
   */
  lemma SecondPassCreatesNothing(env: Env, s: Store, ts: seq<RemoteTask>)
    requires AllMappable(env, ts)
    ensures forall t :: t in ts ==> t.id in Pass(env, s, ts).store
    ensures var s1 := Pass(env, s, ts).store;
            && Pass(env, s1, ts).store.Keys == s1.Keys
            && forall k :: Created(k) !in Pass(env, s1, ts).events
  {
    PassCreationEvents(env, Pass(env, s, ts).store, ts);
  }
}
