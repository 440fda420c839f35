/**
 * The reverse direction: `close_todoist_tasks` closes remote tasks whose
 * local counterpart is already completed, and the `sync` command runs it
 * before `migrate`.
 */
module Propagator {
  import opened Wrappers
  import opened Tasks
  import opened FieldMapper
  import opened Reconciler
  import Gateways

  /** The calls the propagator makes on the Todoist client, in order. */
  datatype RemoteOp = CloseItem(id: RemoteId) | Commit | Sync

  /**
   * The condition under which a remote task is closed. It never coincides
   * with the condition under which `migrate` closes the local task.
   */
  predicate ShouldCloseRemote(s: Store, t: RemoteTask): (close: bool)
    ensures close ==> Lookup(s, t.id).Some? && !IsChecked(t)
    ensures close ==> !CloseIfNeeded(s[t.id], t)
  {
    t.id in s && s[t.id].status == Completed && t.checked != 1
  }

  /** The close calls of the loop, one per qualifying task, in task order. */
  function CloseCalls(s: Store, ts: seq<RemoteTask>): (ops: seq<RemoteOp>)
    ensures |ops| <= |ts|
    ensures forall i :: 0 <= i < |ops| ==> ops[i].CloseItem?
    ensures forall id :: CloseItem(id) in ops <==> exists t :: t in ts && t.id == id && ShouldCloseRemote(s, t)
    decreases |ts|
  {
    if |ts| == 0 then []
    else
      var last := ts[|ts| - 1];
      assert ts == ts[..|ts| - 1] + [last];
      CloseCalls(s, ts[..|ts| - 1]) + (if ShouldCloseRemote(s, last) then [CloseItem(last.id)] else [])
  }

  /** One close call per task of `q`, in order. */
  function ClosesOf(q: seq<RemoteTask>): (ops: seq<RemoteOp>)
    ensures |ops| == |q|
    ensures forall i :: 0 <= i < |q| ==> ops[i] == CloseItem(q[i].id)
  {
    seq(|q|, i requires 0 <= i < |q| => CloseItem(q[i].id))
  }

  lemma ClosesOfConcat(a: seq<RemoteTask>, b: seq<RemoteTask>)
    ensures ClosesOf(a + b) == ClosesOf(a) + ClosesOf(b)
  {
  }

  /**
   * The close loop issues exactly one call per qualifying task, in listing
   * order: it is the filter of the listing by `ShouldCloseRemote`.
   */
  lemma {:induction false} CloseCallsAreFilter(s: Store, ts: seq<RemoteTask>)
    ensures CloseCalls(s, ts) == ClosesOf(Gateways.KeepIf(ts, t => ShouldCloseRemote(s, t)))
    decreases |ts|
  {
    if |ts| > 0 {
      var p := t => ShouldCloseRemote(s, t);
      var pre := ts[..|ts| - 1];
      var last := ts[|ts| - 1];
      assert ts == pre + [last];
      CloseCallsAreFilter(s, pre);
      Gateways.KeepIfConcat(pre, [last], p);
      ClosesOfConcat(Gateways.KeepIf(pre, p), Gateways.KeepIf([last], p));
      CloseOfLast(s, last);
    }
  }

  /** The filter's share of one task: its close call if it qualifies. */
  lemma CloseOfLast(s: Store, last: RemoteTask)
    ensures ClosesOf(Gateways.KeepIf([last], t => ShouldCloseRemote(s, t))) ==
            if ShouldCloseRemote(s, last) then [CloseItem(last.id)] else []
  {
    Gateways.KeepIfSingle(last, t => ShouldCloseRemote(s, t));
  }

  /** `close_todoist_tasks`: the close calls, then one commit and one sync after the loop. */
  function CloseTodoistTasks(s: Store, ts: seq<RemoteTask>): (ops: seq<RemoteOp>)
    ensures |ops| >= 2 && ops[|ops| - 2] == Commit && ops[|ops| - 1] == Sync
    ensures forall i :: 0 <= i < |ops| - 2 ==> ops[i].CloseItem?
    ensures forall id :: CloseItem(id) in ops <==> exists t :: t in ts && t.id == id && ShouldCloseRemote(s, t)
  {
    CloseCalls(s, ts) + [Commit, Sync]
  }

  /** The task as the refreshed listing shows it after the given close calls. */
  function MarkOne(t: RemoteTask, ops: seq<RemoteOp>): (r: RemoteTask)
    ensures r == t.(checked := r.checked)
    ensures CloseItem(t.id) in ops ==> IsChecked(r)
    ensures CloseItem(t.id) !in ops ==> r == t
  {
    if CloseItem(t.id) in ops then t.(checked := 1) else t
  }

  /** The remote tasks after the closes are committed and the cache refreshed. */
  function MarkClosed(ts: seq<RemoteTask>, ops: seq<RemoteOp>): (r: seq<RemoteTask>)
    ensures |r| == |ts|
    ensures forall i :: 0 <= i < |ts| ==> r[i] == MarkOne(ts[i], ops)
    decreases |ts|
  {
    if |ts| == 0 then []
    else MarkClosed(ts[..|ts| - 1], ops) + [MarkOne(ts[|ts| - 1], ops)]
  }

  /** The environment `migrate` sees when `sync` invokes it: no mapping tables. */
  function SyncEnv(env: Env): (e: Env)
    ensures e.cv == env.cv && e.projects == env.projects
    ensures |e.mapProject| == 0 && |e.mapTag| == 0
  {
    env.(mapProject := map[], mapTag := map[])
  }

  /** What the `sync` command leaves behind. */
  datatype SyncResult = SyncResult(remoteOps: seq<RemoteOp>, store: Store, migration: Option<Report>)

  /**
   * The `sync` command over the full, unfiltered task list: optionally close
   * remote tasks, then optionally run `migrate` (default options, so no
   * filters and empty mapping tables) on the refreshed list.
   */
  function TwoWaySync(env: Env, s: Store, items: seq<RemoteTask>, toTodoist: bool, toTaskwarrior: bool): (r: SyncResult)
    requires toTaskwarrior ==> AllMappable(SyncEnv(env), items)
    ensures !toTodoist ==> r.remoteOps == []
    ensures toTodoist ==> r.remoteOps == CloseTodoistTasks(s, items)
    ensures !toTaskwarrior ==> r.store == s && r.migration == None
  {
    var ops := if toTodoist then CloseTodoistTasks(s, items) else [];
    if toTaskwarrior then
      var refreshed := MarkClosed(items, ops);
      MarkClosedMappable(SyncEnv(env), items, ops);
      assert Gateways.GetTasks(refreshed, None, None) == refreshed;
      var local := Migrate(SyncEnv(env), s, refreshed, None, None);
      SyncResult(ops, local.store, Some(local.report))
    else SyncResult(ops, s, None)
  }

  // ---------------------------------------------------------------------
  // Order independence of the two directions
  // ---------------------------------------------------------------------

  /** Remote ids are unique within a task listing. */
  predicate DistinctIds(ts: seq<RemoteTask>) {
    forall i, j :: 0 <= i < j < |ts| ==> ts[i].id != ts[j].id
  }

  /** A checked mark on a task whose local task is completed leaves the step's store alone. */
  lemma StepIgnoresClosedMark(env: Env, p: Store, t: RemoteTask, ops: seq<RemoteOp>)
    requires CanMap(env, t)
    requires CloseItem(t.id) in ops ==> t.id in p && p[t.id].status == Completed
    ensures CanMap(env, MarkOne(t, ops))
    ensures Step(env, p, MarkOne(t, ops)).store == Step(env, p, t).store
  {
  }

  lemma MarkClosedMappable(env: Env, ts: seq<RemoteTask>, ops: seq<RemoteOp>)
    requires AllMappable(env, ts)
    ensures AllMappable(env, MarkClosed(ts, ops))
  {
    var marked := MarkClosed(ts, ops);
    forall t | t in marked
      ensures CanMap(env, t)
    {
      var i :| 0 <= i < |marked| && marked[i] == t;
      assert ts[i] in ts;
    }
  }

  /**
   * Marking a task checked changes nothing in a pass when its local task is
   * already completed: completion is terminal.
   */
  lemma {:induction false} PassIgnoresClosedMarks(env: Env, s: Store, ts: seq<RemoteTask>, ops: seq<RemoteOp>)
    requires AllMappable(env, ts)
    requires forall i :: 0 <= i < |ts| && CloseItem(ts[i].id) in ops ==> ts[i].id in s && s[ts[i].id].status == Completed
    ensures AllMappable(env, MarkClosed(ts, ops))
    ensures Pass(env, s, MarkClosed(ts, ops)).store == Pass(env, s, ts).store
    decreases |ts|
  {
    MarkClosedMappable(env, ts, ops);
    if |ts| > 0 {
      var pre := ts[..|ts| - 1];
      PrefixMappable(env, ts, |ts| - 1);
      PassIgnoresClosedMarks(env, s, pre, ops);
      ClosedMarkExtends(env, s, ts, ops);
    }
  }

  /** The inductive step: one more task, marked or not, gives the same store. */
  lemma ClosedMarkExtends(env: Env, s: Store, ts: seq<RemoteTask>, ops: seq<RemoteOp>)
    requires |ts| > 0
    requires AllMappable(env, ts) && AllMappable(env, ts[..|ts| - 1])
    requires AllMappable(env, MarkClosed(ts, ops)) && AllMappable(env, MarkClosed(ts[..|ts| - 1], ops))
    requires forall i :: 0 <= i < |ts| && CloseItem(ts[i].id) in ops ==> ts[i].id in s && s[ts[i].id].status == Completed
    requires Pass(env, s, MarkClosed(ts[..|ts| - 1], ops)).store == Pass(env, s, ts[..|ts| - 1]).store
    ensures Pass(env, s, MarkClosed(ts, ops)).store == Pass(env, s, ts).store
  {
    var n := |ts|;
    var marked := MarkClosed(ts, ops);
    var pre := ts[..n - 1];
    var last := ts[n - 1];
    assert last in ts;
    var p := Pass(env, s, pre).store;
    PassKeepsCompleted(env, s, pre);
    StepIgnoresClosedMark(env, p, last, ops);
    assert marked[..n - 1] == MarkClosed(pre, ops) && marked[n - 1] == MarkOne(last, ops);
    assert Pass(env, s, marked).store == Step(env, p, MarkOne(last, ops)).store;
    assert Pass(env, s, ts).store == Step(env, p, last).store;
  }

  /** With the TaskWarrior half enabled, `sync` runs `migrate` on the refreshed listing. */
  lemma SyncMigratesRefreshed(env: Env, s: Store, items: seq<RemoteTask>, ops: seq<RemoteOp>, toTodoist: bool)
    requires AllMappable(SyncEnv(env), items)
    requires ops == if toTodoist then CloseTodoistTasks(s, items) else []
    ensures AllMappable(SyncEnv(env), MarkClosed(items, ops))
    ensures TwoWaySync(env, s, items, toTodoist, true).store == MigrateTasks(SyncEnv(env), s, MarkClosed(items, ops)).store
  {
    MarkClosedMappable(SyncEnv(env), items, ops);
    assert TwoWaySync(env, s, items, toTodoist, true).store == Migrate(SyncEnv(env), s, MarkClosed(items, ops), None, None).store;
    MigrateUnfiltered(SyncEnv(env), s, MarkClosed(items, ops));
  }

  /** Every task the propagator closes has a completed local counterpart. */
  lemma ClosedAreCompleted(s: Store, items: seq<RemoteTask>)
    ensures forall i :: 0 <= i < |items| && CloseItem(items[i].id) in CloseTodoistTasks(s, items) ==>
      items[i].id in s && s[items[i].id].status == Completed
  {
  }

  /** Two task lists whose passes leave the same store migrate to the same store. */
  lemma SameMigration(env: Env, s: Store, a: seq<RemoteTask>, b: seq<RemoteTask>)
    requires AllMappable(env, a) && AllMappable(env, b)
    requires |a| == |b|
    requires Pass(env, s, a).store == Pass(env, s, b).store
    ensures MigrateTasks(env, s, a).store == MigrateTasks(env, s, b).store
  {
  }

  /**
   * In `sync`, closing remote tasks first leaves the local store exactly as
   * running `migrate` alone would.
   */
  lemma CloseFirstKeepsLocalResult(env: Env, s: Store, items: seq<RemoteTask>)
    requires AllMappable(SyncEnv(env), items)
    ensures TwoWaySync(env, s, items, true, true).store == TwoWaySync(env, s, items, false, true).store
  {
    var ops := CloseTodoistTasks(s, items);
    SyncMigratesRefreshed(env, s, items, ops, true);
    SyncMigratesRefreshed(env, s, items, [], false);
    assert MarkClosed(items, []) == items;
    ClosedAreCompleted(s, items);
    PassIgnoresClosedMarks(SyncEnv(env), s, items, ops);
    SameMigration(SyncEnv(env), s, MarkClosed(items, ops), items);
  }

  lemma {:induction false} WithIdOfDistinct(ts: seq<RemoteTask>, i: int)
    requires DistinctIds(ts)
    requires 0 <= i < |ts|
    ensures WithId(ts, ts[i].id) == [ts[i]]
    decreases |ts|
  {
    var n := |ts|;
    var pre := ts[..n - 1];
    if i < n - 1 {
      WithIdOfDistinct(pre, i);
    } else {
      assert forall j :: 0 <= j < |pre| ==> pre[j].id != ts[i].id;
    }
  }

  lemma {:induction false} CloseCallsAgree(s1: Store, s2: Store, ts: seq<RemoteTask>)
    requires forall t :: t in ts ==> ShouldCloseRemote(s1, t) == ShouldCloseRemote(s2, t)
    ensures CloseCalls(s1, ts) == CloseCalls(s2, ts)
    decreases |ts|
  {
    if |ts| > 0 {
      CloseCallsAgree(s1, s2, ts[..|ts| - 1]);
    }
  }

  /** With unique ids, a pass only reconciles each task's own entry, once. */
  lemma PassKeepsCloseDecision(env: Env, s: Store, ts: seq<RemoteTask>, i: int)
    requires AllMappable(env, ts)
    requires DistinctIds(ts)
    requires 0 <= i < |ts|
    ensures ShouldCloseRemote(Pass(env, s, ts).store, ts[i]) == ShouldCloseRemote(s, ts[i])
  {
    var t := ts[i];
    var s1 := Pass(env, s, ts).store;
    assert t in ts;
    WithIdOfDistinct(ts, i);
    PassPerKey(env, s, ts, t.id);
    assert [t][..0] == [];
    assert Lookup(s1, t.id) == Some(Reconcile(Lookup(s, t.id), t, MapToTw(env, t)).task);
  }

  /**
   * With unique remote ids, running `migrate` first does not change which
   * remote tasks the propagator closes.
   */
  lemma MigrateFirstKeepsCloses(env: Env, s: Store, ts: seq<RemoteTask>)
    requires AllMappable(env, ts)
    requires DistinctIds(ts)
    ensures CloseCalls(Pass(env, s, ts).store, ts) == CloseCalls(s, ts)
  {
    var s1 := Pass(env, s, ts).store;
    forall t | t in ts
      ensures ShouldCloseRemote(s1, t) == ShouldCloseRemote(s, t)
    {
      var i :| 0 <= i < |ts| && ts[i] == t;
      PassKeepsCloseDecision(env, s, ts, i);
    }
    CloseCallsAgree(s1, s, ts);
  }
}
