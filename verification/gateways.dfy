/**
 * The pure parts of the Todoist gateway: building the task filter used by
 * `get_tasks`, and flattening a project and its ancestors into a
 * dot-delimited path that is then passed through the project mapping.
 */
module Gateways {
  import opened Wrappers
  import opened Tasks
  import Utils

  // ---------------------------------------------------------------------
  // Task filtering
  // ---------------------------------------------------------------------

  /** The two task fields `get_tasks` can constrain. */
  datatype FilterKey = IdKey | ProjectIdKey

  /** A filter dictionary: field to required value. */
  type Filter = map<FilterKey, int>

  function Field(t: RemoteTask, k: FilterKey): int {
    match k
    case IdKey => t.id
    case ProjectIdKey => t.projectId
  }

  /** A task passes a filter when it has the required value for every key. */
  predicate Accepts(f: Filter, t: RemoteTask) {
    forall k :: k in f ==> Field(t, k) == f[k]
  }

  /** Python truthiness of an optional integer command-line argument. */
  predicate Truthy(arg: Option<int>) {
    arg.Some? && arg.value != 0
  }

  /** The filter dictionary `get_tasks` builds from its two optional arguments. */
  function BuildFilter(filterTaskId: Option<int>, filterProjId: Option<int>): (f: Filter)
    ensures IdKey in f <==> Truthy(filterTaskId)
    ensures ProjectIdKey in f <==> Truthy(filterProjId)
    ensures IdKey in f ==> f[IdKey] == filterTaskId.value
    ensures ProjectIdKey in f ==> f[ProjectIdKey] == filterProjId.value
  {
    var withId: Filter := if Truthy(filterTaskId) then map[IdKey := filterTaskId.value] else map[];
    if Truthy(filterProjId) then withId[ProjectIdKey := filterProjId.value] else withId
  }

  /**
   * The predicate `make_filter_fn` returns, as the source writes it: a loop
   * over the filter's keys that stops at the first field that differs. Its
   * contract shows the loop decides exactly `Accepts`, which is why
   * `MakeFilterFn` may hand out `Accepts` itself as the predicate.
   */
  method FilterFn(f: Filter, t: RemoteTask) returns (accepted: bool)
    ensures accepted <==> Accepts(f, t)
  {
    var todo := f.Keys;
    while todo != {}
      invariant todo <= f.Keys
      invariant forall k :: k in f && k !in todo ==> Field(t, k) == f[k]
      decreases todo
    {
      var k :| k in todo;
      if Field(t, k) != f[k] {
        return false;
      }
      todo := todo - {k};
    }
    return true;
  }

  /** `make_filter_fn`: no predicate at all for an empty filter, otherwise `Accepts`. */
  function MakeFilterFn(f: Filter): (fn: Option<RemoteTask -> bool>)
    ensures fn.None? <==> |f| == 0
    ensures fn.Some? ==> forall t :: fn.value(t) <==> Accepts(f, t)
  {
    if |f| == 0 then None else Some(t => Accepts(f, t))
  }

  /** The tasks of `items` that satisfy `p`, in their original order. */
  function KeepIf(items: seq<RemoteTask>, p: RemoteTask -> bool): (r: seq<RemoteTask>)
    ensures |r| <= |items|
    ensures forall t :: t in r <==> t in items && p(t)
    ensures forall t :: multiset(r)[t] == if p(t) then multiset(items)[t] else 0
    ensures (forall t :: t in items ==> !p(t)) ==> r == []
    decreases |items|
  {
    if |items| == 0 then []
    else
      assert items == [items[0]] + items[1..];
      (if p(items[0]) then [items[0]] else []) + KeepIf(items[1..], p)
  }

  /**
   * Filtering distributes over concatenation; with `KeepIfSingle` this pins
   * the result down to the accepted items in their original order.
   */
  lemma {:induction false} KeepIfConcat(a: seq<RemoteTask>, b: seq<RemoteTask>, p: RemoteTask -> bool)
    ensures KeepIf(a + b, p) == KeepIf(a, p) + KeepIf(b, p)
    decreases |a|
  {
    if |a| == 0 {
      assert a + b == b;
    } else {
      var rest := a[1..];
      assert a == [a[0]] + rest;
      assert a + b == [a[0]] + (rest + b);
      var head := if p(a[0]) then [a[0]] else [];
      var x := KeepIf(rest, p);
      var y := KeepIf(b, p);
      KeepIfCons(a[0], rest, p);
      KeepIfCons(a[0], rest + b, p);
      KeepIfConcat(rest, b, p);
      calc {
        KeepIf(a + b, p);
        head + KeepIf(rest + b, p);
        head + (x + y);
        { ConcatAssoc(head, x, y); }
        (head + x) + y;
        KeepIf(a, p) + y;
      }
    }
  }

  lemma ConcatAssoc<T>(a: seq<T>, b: seq<T>, c: seq<T>)
    ensures a + (b + c) == (a + b) + c
  {
  }

  /** Filtering a list with a known first item. */
  lemma KeepIfCons(t: RemoteTask, rest: seq<RemoteTask>, p: RemoteTask -> bool)
    ensures KeepIf([t] + rest, p) == (if p(t) then [t] else []) + KeepIf(rest, p)
  {
    assert ([t] + rest)[0] == t && ([t] + rest)[1..] == rest;
  }

  /** A single item is kept iff it satisfies the predicate. */
  lemma KeepIfSingle(t: RemoteTask, p: RemoteTask -> bool)
    ensures KeepIf([t], p) == if p(t) then [t] else []
  {
    assert [t][1..] == [];
  }

  /** The item listing of the Todoist client: everything when no predicate is given. */
  function AllItems(items: seq<RemoteTask>, filt: Option<RemoteTask -> bool>): (r: seq<RemoteTask>)
    ensures filt.None? ==> r == items
    ensures filt.Some? ==> forall t :: t in r <==> t in items && filt.value(t)
    ensures filt.Some? ==> forall t :: multiset(r)[t] == if filt.value(t) then multiset(items)[t] else 0
    ensures filt.Some? && (forall t :: t in items ==> !filt.value(t)) ==> r == []
  {
    match filt
    case None => items
    case Some(p) => KeepIf(items, p)
  }

  /** The tasks `get_tasks` lists for the given filter arguments. */
  predicate Selects(filterTaskId: Option<int>, filterProjId: Option<int>, t: RemoteTask) {
    && (Truthy(filterTaskId) ==> t.id == filterTaskId.value)
    && (Truthy(filterProjId) ==> t.projectId == filterProjId.value)
  }

  /** `Todoist.get_tasks`: a falsy argument (absent or 0) adds no constraint. */
  function GetTasks(items: seq<RemoteTask>, filterTaskId: Option<int>, filterProjId: Option<int>): (tasks: seq<RemoteTask>)
    ensures !Truthy(filterTaskId) && !Truthy(filterProjId) ==> tasks == items
    ensures forall t :: t in tasks <==> t in items && Selects(filterTaskId, filterProjId, t)
    ensures forall t :: multiset(tasks)[t] == if Selects(filterTaskId, filterProjId, t) then multiset(items)[t] else 0
    ensures Truthy(filterProjId) && (forall t :: t in items ==> t.projectId != filterProjId.value) ==> tasks == []
  {
    var f := BuildFilter(filterTaskId, filterProjId);
    assert forall t :: Accepts(f, t) <==> Selects(filterTaskId, filterProjId, t) by {
      forall t ensures Accepts(f, t) <==> Selects(filterTaskId, filterProjId, t) {
        assert Field(t, IdKey) == t.id;
        assert Field(t, ProjectIdKey) == t.projectId;
      }
    }
    AllItems(items, MakeFilterFn(f))
  }

  /**
   * The listing keeps the client's order: it distributes over concatenation,
   * and a single item is listed iff the filters select it.
   */
  lemma GetTasksKeepsOrder(a: seq<RemoteTask>, b: seq<RemoteTask>, filterTaskId: Option<int>, filterProjId: Option<int>)
    ensures GetTasks(a + b, filterTaskId, filterProjId) == GetTasks(a, filterTaskId, filterProjId) + GetTasks(b, filterTaskId, filterProjId)
    ensures forall t :: GetTasks([t], filterTaskId, filterProjId) == if Selects(filterTaskId, filterProjId, t) then [t] else []
  {
    var fn := MakeFilterFn(BuildFilter(filterTaskId, filterProjId));
    if fn.Some? {
      KeepIfConcat(a, b, fn.value);
    }
    forall t
      ensures GetTasks([t], filterTaskId, filterProjId) == if Selects(filterTaskId, filterProjId, t) then [t] else []
    {
      assert t in [t];
      if Selects(filterTaskId, filterProjId, t) {
        assert multiset(GetTasks([t], filterTaskId, filterProjId))[t] == 1;
      }
    }
  }

  // ---------------------------------------------------------------------
  // Project hierarchy
  // ---------------------------------------------------------------------

  datatype Project = Project(name: string, parentId: Option<ProjectId>)

  /** The Todoist project table, by id. */
  type ProjectTable = map<ProjectId, Project>

  /** The walk continues while `p['parent_id']` is truthy (present and not 0). */
  predicate HasParent(p: Project) {
    p.parentId.Some? && p.parentId.value != 0
  }

  /**
   * A root-first ancestor chain: every id resolves, the first project has no
   * parent and each later project's parent is the project before it.
   */
  predicate IsChain(projects: ProjectTable, c: seq<ProjectId>) {
    && |c| > 0
    && (forall i :: 0 <= i < |c| ==> c[i] in projects)
    && !HasParent(projects[c[0]])
    && (forall i :: 0 < i < |c| ==> HasParent(projects[c[i]]) && projects[c[i]].parentId.value == c[i - 1])
  }

  /** What stops the walk: a parent id that does not resolve, or an id met twice. */
  datatype WalkError = MissingProject(id: ProjectId) | Cycle(id: ProjectId)

  /**
   * The ancestor walk of `project_name_from_todoist`, root first. The source
   * raises on a parent that does not resolve and never stops on a cycle; the
   * `visited` set turns both into errors.
   */
  function Ancestry(projects: ProjectTable, id: ProjectId, visited: set<ProjectId>): (r: Result<seq<ProjectId>, WalkError>)
    ensures r.Ok? ==> IsChain(projects, r.value) && r.value[|r.value| - 1] == id
    ensures r.Ok? ==> forall i :: 0 <= i < |r.value| ==> r.value[i] !in visited
    decreases projects.Keys - visited
  {
    if id !in projects then Err(MissingProject(id))
    else if id in visited then Err(Cycle(id))
    else if !HasParent(projects[id]) then Ok([id])
    else
      match Ancestry(projects, projects[id].parentId.value, visited + {id})
      case Err(e) => Err(e)
      case Ok(above) => Ok(above + [id])
  }

  /** A chain never repeats an id: only its first element lacks a parent. */
  lemma {:induction false} ChainDistinct(projects: ProjectTable, c: seq<ProjectId>, i: int, j: int)
    requires IsChain(projects, c)
    requires 0 <= i < j < |c|
    ensures c[i] != c[j]
    decreases i
  {
    if i > 0 {
      ChainDistinct(projects, c, i - 1, j - 1);
    }
  }

  /** The walk finds every chain that avoids the visited set. */
  lemma {:induction false} AncestryComplete(projects: ProjectTable, c: seq<ProjectId>, visited: set<ProjectId>)
    requires IsChain(projects, c)
    requires forall i :: 0 <= i < |c| ==> c[i] !in visited
    ensures Ancestry(projects, c[|c| - 1], visited) == Ok(c)
    decreases |c|
  {
    var n := |c|;
    var id := c[n - 1];
    assert id in projects && id !in visited;
    if n == 1 {
      assert !HasParent(projects[id]);
      assert c == [id];
    } else {
      var above := c[..n - 1];
      assert IsChain(projects, above);
      forall i | 0 <= i < |above|
        ensures above[i] !in visited + {id}
      {
        ChainDistinct(projects, c, i, n - 1);
      }
      AncestryComplete(projects, above, visited + {id});
      assert id in projects && id !in visited && HasParent(projects[id]);
      assert projects[id].parentId.value == above[|above| - 1];
      assert c == above + [id];
    }
  }

  /** The source can resolve a project id: it is unknown, or its walk reaches a root. */
  predicate Resolvable(projects: ProjectTable, id: ProjectId) {
    id !in projects || Ancestry(projects, id, {}).Ok?
  }

  /** A known project is resolvable exactly when a root-first chain ends at it. */
  lemma ResolvableIffChain(projects: ProjectTable, id: ProjectId)
    requires id in projects
    ensures Resolvable(projects, id) <==> exists c :: IsChain(projects, c) && c[|c| - 1] == id
  {
    if c :| IsChain(projects, c) && c[|c| - 1] == id {
      AncestryComplete(projects, c, {});
    }
  }

  /** The root-first hierarchy of a known, resolvable project. */
  function Hierarchy(projects: ProjectTable, id: ProjectId): (h: seq<ProjectId>)
    requires id in projects && Resolvable(projects, id)
    ensures IsChain(projects, h)
    ensures h[|h| - 1] == id
  {
    Ancestry(projects, id, {}).value
  }

  /** `'.'.join(names)`: the path starts with the first name and ends with the last. */
  function JoinPath(names: seq<string>): (path: string)
    ensures |names| > 0 ==> names[0] <= path
    decreases |names|
  {
    if |names| == 0 then ""
    else if |names| == 1 then names[0]
    else names[0] + "." + JoinPath(names[1..])
  }

  /** Joining dot-free names puts exactly one separator between neighbours. */
  lemma {:induction false} JoinPathSeparators(names: seq<string>)
    requires |names| > 0
    requires forall i :: 0 <= i < |names| ==> '.' !in names[i]
    ensures multiset(JoinPath(names))['.'] == |names| - 1
    decreases |names|
  {
    if |names| > 1 {
      assert '.' !in names[0];
      JoinPathSeparators(names[1..]);
      assert JoinPath(names) == names[0] + "." + JoinPath(names[1..]);
    } else {
      assert '.' !in names[0];
    }
  }

  /** `path.split('.')`: the inverse of `JoinPath` on names free of dots. */
  function SplitPath(path: string): (parts: seq<string>)
    ensures |parts| >= 1
    decreases |path|
  {
    if |path| == 0 then [""]
    else if path[0] == '.' then [""] + SplitPath(path[1..])
    else
      var rest := SplitPath(path[1..]);
      [[path[0]] + rest[0]] + rest[1..]
  }

  lemma {:induction false} SplitPlain(a: string)
    requires '.' !in a
    ensures SplitPath(a) == [a]
    decreases |a|
  {
    if |a| > 0 {
      SplitPlain(a[1..]);
      assert [a[0]] + a[1..] == a;
    }
  }

  lemma {:induction false} SplitAtFirstDot(a: string, b: string)
    requires '.' !in a
    ensures SplitPath(a + "." + b) == [a] + SplitPath(b)
    decreases |a|
  {
    var s := a + "." + b;
    if |a| == 0 {
      assert s[1..] == b;
    } else {
      assert s[1..] == a[1..] + "." + b;
      SplitAtFirstDot(a[1..], b);
      assert [a[0]] + a[1..] == a;
    }
  }

  /** Names without dots survive a join followed by a split. */
  lemma {:induction false} SplitJoin(names: seq<string>)
    requires |names| > 0
    requires forall i :: 0 <= i < |names| ==> '.' !in names[i]
    ensures SplitPath(JoinPath(names)) == names
    decreases |names|
  {
    if |names| == 1 {
      SplitPlain(names[0]);
    } else {
      SplitAtFirstDot(names[0], JoinPath(names[1..]));
      SplitJoin(names[1..]);
      assert names == [names[0]] + names[1..];
    }
  }

  /** The project names along a chain, in the same order. */
  function Names(projects: ProjectTable, h: seq<ProjectId>): (names: seq<string>)
    requires forall i :: 0 <= i < |h| ==> h[i] in projects
    ensures |names| == |h|
    ensures forall i :: 0 <= i < |h| ==> names[i] == projects[h[i]].name
  {
    seq(|h|, i requires 0 <= i < |h| => projects[h[i]].name)
  }

  /** The dot-joined project path before any mapping. */
  function UnmappedPath(projects: ProjectTable, id: ProjectId): string
    requires id in projects && Resolvable(projects, id)
  {
    JoinPath(Names(projects, Hierarchy(projects, id)))
  }

  /** A top-level project's path is exactly its own name. */
  lemma RootPathIsName(projects: ProjectTable, id: ProjectId)
    requires id in projects && !HasParent(projects[id])
    ensures Resolvable(projects, id)
    ensures UnmappedPath(projects, id) == projects[id].name
  {
  }

  /** With names free of dots, the path splits back into the root-first names of the chain. */
  lemma PathSegments(projects: ProjectTable, id: ProjectId)
    requires id in projects && Resolvable(projects, id)
    requires forall k :: k in projects ==> '.' !in projects[k].name
    ensures var h := Hierarchy(projects, id);
            var parts := SplitPath(UnmappedPath(projects, id));
            && |parts| == |h|
            && (forall i :: 0 <= i < |h| ==> parts[i] == projects[h[i]].name)
            && parts[|parts| - 1] == projects[id].name
  {
    var h := Hierarchy(projects, id);
    var names := Names(projects, h);
    assert forall i :: 0 <= i < |names| ==> '.' !in names[i] by {
      forall i | 0 <= i < |names| ensures '.' !in names[i] {
        var k := h[i];
        assert k in projects && names[i] == projects[k].name;
        assert '.' !in projects[k].name;
      }
    }
    SplitJoin(names);
  }

  /**
   * `Todoist.project_name_from_todoist`: an unknown project gives the empty
   * string untouched by the mapping; otherwise the whole joined path goes
   * through the mapping once.
   */
  function ProjectName(projects: ProjectTable, id: ProjectId, mapProject: map<string, string>): (name: string)
    requires Resolvable(projects, id)
    ensures id !in projects ==> name == ""
    ensures id in projects ==> name == Utils.TryMap(mapProject, UnmappedPath(projects, id))
  {
    if id !in projects then ""
    else Utils.TryMap(mapProject, JoinPath(Names(projects, Hierarchy(projects, id))))
  }

  /** The help text's example: the full path is mapped, not its segments. */
  lemma MappingAppliesToWholePath()
    ensures var projects := map[1 := Project("Programming", None), 2 := Project("Open Source", Some(1))];
            && Resolvable(projects, 2)
            && UnmappedPath(projects, 2) == "Programming.Open Source"
            && ProjectName(projects, 2, map["Programming.Open Source" := "oss"]) == "oss"
            && ProjectName(projects, 2, map["Open Source" := "oss"]) == "Programming.Open Source"
            && ProjectName(projects, 2, map["Programming.Open Source" := ""]) == ""
  {
    var projects := map[1 := Project("Programming", None), 2 := Project("Open Source", Some(1))];
    AncestryComplete(projects, [1, 2], {});
    assert Names(projects, [1, 2]) == ["Programming", "Open Source"];
  }
}
