# Todoist → TaskWarrior reconciler, modelled in Dafny

This project models the task-reconciliation core of `todoist-taskwarrior`. That is the tool
that migrates Todoist tasks into TaskWarrior and propagates completion back.

- **Reconciler** (`migrate`). Each remote task is looked up in the local store by its
  `todoist_id`. The task is then created, created and closed, closed, updated if still
  pending, or left alone if already completed. A pass is a fold of `Step` over the
  filtered task list.
- **Completion propagator** (`close_todoist_tasks`, `sync`). It closes remote tasks whose
  local counterpart is completed, then commits and syncs once.
- **Field mapper** (`map_to_tw`). It builds the payload, including the dot-joined project
  path and one tag per label.
- **Gateway helpers** (`get_tasks`, `make_filter_fn`, `project_name_from_todoist`).

The local store is a `map<RemoteId, LocalTask>`. A local task is a status (`Pending` or
`Completed`) plus a payload. The project table is a `map<ProjectId, Project>`. The
helpers `map_to_tw` calls (priority, date, due and recurrence parsers, whitespace quoting,
label-name lookup) enter as fixed, uninterpreted function values in a `Converters` record.

Modules: `Wrappers` (Option, Result), `Tasks` (entities), `Utils` (the mapping tables),
`Gateways`, `FieldMapper`, `Reconciler`, `Propagator`.

Three points where the model commits to one reading of the code:

- A tag whose mapping destination is empty keeps its slot in the tag list. The option help
  text (`cli.py:85-86`) says such a tag is removed. The list comprehension at
  `cli.py:172-175` emits one entry per label, whatever `try_map` returns, and filters
  nothing. `try_map` is not part of this model, so the model writes "" for the unset tag.
- `tw.update(tw_task, data)` receives the whole `map_to_tw` payload (`cli.py:147`). The
  model replaces the local payload with it.
- The ancestor walk has no cycle guard (`gateways.py:39-41`). It raises on an
  unresolvable parent and never stops on a cycle. The model's walk reports both as errors
  (`Ancestry`). A project name is only computed for tasks whose walk succeeds
  (`Resolvable`), and only the tasks `get_tasks` lists are mapped, so an unresolvable task
  that the filters leave out does not block a migration.

## Model

| member | source | states |
|---|---|---|
| Utils.TryMap | todoist_taskwarrior/cli.py:79-86 | an unmatched value is returned unchanged; a match is replaced by its destination, and an empty destination unsets it |
| Gateways.BuildFilter | todoist_taskwarrior/gateways.py:17-21 | the `id` / `project_id` keys are present exactly when the argument is truthy (absent or 0 adds no key), with the argument's value |
| Gateways.FilterFn | todoist_taskwarrior/gateways.py:61-65 | the early-exit loop accepts a task iff every filter key has the required value |
| Gateways.MakeFilterFn | todoist_taskwarrior/gateways.py:53-67 | an empty filter gives no predicate; otherwise the predicate holds iff the task matches every key |
| Gateways.KeepIf | todoist_taskwarrior/gateways.py:25 | the accepted items are kept, each as often as it occurs, and nothing else |
| Gateways.KeepIfConcat | todoist_taskwarrior/gateways.py:25 | filtering distributes over concatenation, so the accepted items keep the listing's order |
| Gateways.AllItems | todoist_taskwarrior/gateways.py:25 | without a predicate every item is listed; with one, exactly the accepted items, each as often as it occurs in the listing |
| Gateways.GetTasks | todoist_taskwarrior/gateways.py:14-26 | with both filters falsy the list is all items; otherwise a task is listed iff it is an item meeting each truthy constraint, as often as it occurs among the items |
| Gateways.GetTasksKeepsOrder | todoist_taskwarrior/gateways.py:14-26 | the listing distributes over concatenation, and a single item is listed iff the filters select it, so the selected tasks keep the client's order |
| Gateways.Ancestry | todoist_taskwarrior/gateways.py:38-41 | a successful walk is a root-first chain ending at the task's project, avoiding already visited ids |
| Gateways.ChainDistinct | todoist_taskwarrior/gateways.py:39-41 | a chain that ends in a root never repeats a project id |
| Gateways.AncestryComplete | todoist_taskwarrior/gateways.py:38-41 | every root-first chain is exactly what the walk returns for its last project |
| Gateways.ResolvableIffChain | todoist_taskwarrior/gateways.py:39-41 | the walk terminates on a known project iff an acyclic, fully resolvable parent chain reaches a root |
| Gateways.JoinPath | todoist_taskwarrior/gateways.py:43 | the joined path starts with the root's name |
| Gateways.JoinPathSeparators | todoist_taskwarrior/gateways.py:43 | the joined path of dot-free names holds exactly one dot fewer than there are names |
| Gateways.SplitJoin | todoist_taskwarrior/gateways.py:43 | names without dots are recovered by splitting the joined path on `.` |
| Gateways.RootPathIsName | todoist_taskwarrior/gateways.py:38-43 | a project with no parent has exactly its own name as path |
| Gateways.PathSegments | todoist_taskwarrior/gateways.py:38-43 | the path's `.`-separated segments are the chain's names root first, the last being the task's own project |
| Gateways.ProjectName | todoist_taskwarrior/gateways.py:32-50 | an unknown project gives "" with no mapping applied; a known one gives the mapping applied once to the whole joined path |
| Gateways.MappingAppliesToWholePath | todoist_taskwarrior/cli.py:100-109 | `Programming.Open Source` maps to `oss`; a mapping of the segment alone does not apply; an empty destination unsets the project |
| FieldMapper.Tags | todoist_taskwarrior/cli.py:172-175 | one tag per label, in label order, each the label's name through the tag mapping |
| FieldMapper.MapToTw | todoist_taskwarrior/cli.py:157-178 | payload binds `tid` to the remote id and `description` to the content; project is the mapped path; tags follow the labels |
| FieldMapper.PayloadIgnoresChecked | todoist_taskwarrior/cli.py:157-178 | the payload does not depend on the remote completion flag |
| FieldMapper.TagsAreLabelNames | todoist_taskwarrior/cli.py:172-175 | without a tag mapping the tags are the label names in label order |
| FieldMapper.RemovedTagLeavesEmptyEntry | todoist_taskwarrior/cli.py:172-175 | labels urgent, home with `home=` give the tags `urgent` and an empty tag, not just `urgent` |
| Reconciler.CloseIfNeeded | todoist_taskwarrior/cli.py:222-232 | true iff the remote task is checked and the local one pending; never true for a completed local task |
| Tasks.Lookup | todoist_taskwarrior/cli.py:138 | `get_task` finds a local task exactly when the id is mapped, and then it is the mapped task |
| Reconciler.Reconcile | todoist_taskwarrior/cli.py:138-154 | creation from the payload (completed iff checked); close takes precedence over update and keeps the payload; pending and unchecked gets the new payload; completed is left unchanged; completion never reverts |
| Reconciler.Step | todoist_taskwarrior/cli.py:131-154 | only the task's own id changes in the store; a creation event is reported iff the id was unmapped |
| Reconciler.StepOnUnmapped | todoist_taskwarrior/cli.py:151-154 | an unmapped remote task adds exactly one local task, with its id and content, completed iff checked |
| Reconciler.Pass | todoist_taskwarrior/cli.py:131-154 | afterwards every listed id is mapped, and no entry for an unlisted id changes |
| Reconciler.PassKeepsBinding | todoist_taskwarrior/cli.py:111-113 | if every local task carries the `todoist_id` it is stored under, it still does after a pass |
| Reconciler.PassCreationEvents | todoist_taskwarrior/cli.py:138-154 | a creation is reported for an id iff the id is listed and was not mapped before the pass |
| Reconciler.PassKeepsCompleted | todoist_taskwarrior/cli.py:146-149 | a pass leaves every completed local task exactly as it was |
| Reconciler.MigrateTasks | todoist_taskwarrior/cli.py:125-154 | an empty task list leaves the store unchanged and reports only "no matching tasks" |
| Reconciler.Migrate | todoist_taskwarrior/cli.py:124-139 | only the listed tasks need a resolvable project; when the filters match nothing the store is untouched and no event is emitted |
| Reconciler.FilteredOutCycleIsHarmless | todoist_taskwarrior/cli.py:125-139 | a task on a project cycle that `--filter-task-id 20` leaves out does not stop task 20 from being migrated |
| Reconciler.MigrateUnfiltered | todoist_taskwarrior/cli.py:125-128 | without filters `migrate` reconciles every listed item |
| Reconciler.RunMigration | todoist_taskwarrior/cli.py:130-154 | the task-by-task loop computes the fold and maps every listed id |
| Reconciler.PassPerKey | todoist_taskwarrior/cli.py:131-154 | a pass acts on each remote id independently, through that id's own tasks in order |
| Reconciler.FoldKeyCompletedStays | todoist_taskwarrior/cli.py:146-149 | a completed local task is left unchanged by any later remote tasks |
| Reconciler.FoldKeyCheckedCompletes | todoist_taskwarrior/cli.py:140-144 | any checked remote task for an id leaves its local task completed |
| Reconciler.FoldKeyUncheckedLastWins | todoist_taskwarrior/cli.py:146-148 | with nothing checked and no completed start, the local task is pending with the last payload |
| Reconciler.FoldKeyIdempotent | todoist_taskwarrior/cli.py:138-154 | reconciling one id's tasks a second time changes nothing |
| Reconciler.PassIdempotent | todoist_taskwarrior/cli.py:111-113 | a second pass over the same tasks leaves the store as the first left it, even with repeated ids |
| Reconciler.SecondPassCreatesNothing | todoist_taskwarrior/cli.py:111-113 | after one pass every listed id is mapped; a second pass keeps the same ids and reports no creation |
| Propagator.CloseCalls | todoist_taskwarrior/cli.py:211-217 | a close is issued for an id iff a listed task with that id has a completed local counterpart and is not checked |
| Propagator.CloseCallsAreFilter | todoist_taskwarrior/cli.py:211-217 | the loop issues exactly one close call per qualifying task, in listing order |
| Propagator.ShouldCloseRemote | todoist_taskwarrior/cli.py:212-215 | a remote task is closed only if its local task exists and it is not checked; `migrate` never closes that local task |
| Propagator.CloseTodoistTasks | todoist_taskwarrior/cli.py:209-219 | the close calls come first, then exactly one commit and one sync |
| Propagator.MarkClosed | todoist_taskwarrior/cli.py:217-219 | after the refresh, the closed tasks are checked and every other task is unchanged |
| Propagator.TwoWaySync | todoist_taskwarrior/cli.py:189-202 | the remote closes run only when enabled; without the TaskWarrior half the local store is unchanged |
| Propagator.SyncMigratesRefreshed | todoist_taskwarrior/cli.py:196-202 | with the TaskWarrior half enabled, `sync` reconciles the whole refreshed listing, with no mapping tables |
| Propagator.StepIgnoresClosedMark | todoist_taskwarrior/cli.py:142-149 | marking a task checked does not change the step when its local task is completed |
| Propagator.PassIgnoresClosedMarks | todoist_taskwarrior/cli.py:146-149 | marking completed-locally tasks checked does not change the store a pass produces |
| Propagator.CloseFirstKeepsLocalResult | todoist_taskwarrior/cli.py:196-202 | in `sync`, closing remote tasks first gives the same local store as migrating alone |
| Propagator.PassKeepsCloseDecision | todoist_taskwarrior/cli.py:211-217 | with unique remote ids, a pass does not change whether a listed task qualifies for closing |
| Propagator.MigrateFirstKeepsCloses | todoist_taskwarrior/cli.py:209-217 | with unique remote ids, migrating first does not change which remote tasks get closed |

## Left out

- Click command and option wiring, `Ctx`, `synchronize`, `clean` and logging are left out. They are command-line, file-system and logging plumbing.
- The Todoist client, its `~/.todoist-sync` cache and the network are left out. `commit()` and `sync()` appear only as `RemoteOp` values. After a commit, the refreshed listing is modelled as the same items with the closed ones checked (`MarkClosed`).
- The TaskWarrior client is left out. `get_task`, `add_task`, `update` and `close` are operations on the store map. `add_task` always succeeds, so the `if tw_task:` at `cli.py:152` always holds. `update` overwrites the payload.
- TaskWarrior statuses other than pending and completed (deleted, waiting, recurring) are left out. The source only compares against the two status constants.
- The bodies of `utils.parse_priority`, `parse_date`, `parse_due` and `maybe_quote_ws`, and the label lookup, are not part of this model. Each is an uninterpreted total function in `Converters`, so a missing label's crash is not modelled.
- `utils.try_get_model_prop(task, 'due')` is not part of this model. It is modelled as the task's `due` option (`RemoteTask.due`), read directly, so it is assumed to return the task's due date or `None`.
- `utils.parse_recur` is not a separate function in the model. It is part of `recurOrPrompt` in `Converters`, together with the prompt that follows a failed parse.
- `utils.try_map` is not part of this model. `Utils.TryMap` implements the contract in the option help text: exact match, unchanged when unmatched, empty destination meaning unset.
- `parse_recur_or_prompt` is not modelled, because it prompts on the terminal. It is one uninterpreted function, so the unsupported-recurrence prompt is not modelled either.
- The interactive per-task override loop is left out. It does not appear in this code.
- `ctx.invoke(migrate)` inside `sync` passes click's defaults. `TwoWaySync` models that call with no filters and empty mapping tables.
- Propagator.MigrateFirstKeepsCloses: holds only when remote ids are unique in the listing. A repeated id whose copies differ in `checked` can change the outcome.
- Reconciler.PassIdempotent: holds because the recurrence prompt is one fixed function in `Converters`. The source asks the operator again on every run (`cli.py:235-244`), and a different answer on the second run would change the payload. `Reconciler.FoldKeyIdempotent` rests on the same assumption.
