/**
 * `map_to_tw`: the TaskWarrior payload assembled from one Todoist task. The
 * parsers and label lookup it calls are not part of the model; they enter
 * as the fixed, uninterpreted functions of a `Converters` record.
 */
module FieldMapper {
  import opened Wrappers
  import opened Tasks
  import Utils
  import Gateways

  /** The helpers `map_to_tw` delegates to, taken as given functions. */
  datatype Converters = Converters(
    quoteWs: string -> string,                 // utils.maybe_quote_ws
    parsePriority: int -> string,              // utils.parse_priority
    parseDate: string -> string,               // utils.parse_date
    parseDue: Option<Due> -> Option<string>,   // utils.parse_due
    recurOrPrompt: Option<Due> -> Option<string>, // parse_recur_or_prompt
    labelName: LabelId -> string)              // labels.get_by_id(l_id)['name']

  /** Everything one migration run holds fixed: helpers, project table and mapping tables. */
  datatype Env = Env(
    cv: Converters,
    projects: Gateways.ProjectTable,
    mapProject: map<string, string>,
    mapTag: map<string, string>)

  /** The project lookup of `map_to_tw` terminates for this task. */
  predicate CanMap(env: Env, t: RemoteTask) {
    Gateways.Resolvable(env.projects, t.projectId)
  }

  predicate AllMappable(env: Env, ts: seq<RemoteTask>) {
    forall t :: t in ts ==> CanMap(env, t)
  }

  lemma PrefixMappable(env: Env, ts: seq<RemoteTask>, n: int)
    requires AllMappable(env, ts)
    requires 0 <= n <= |ts|
    ensures AllMappable(env, ts[..n])
  {
    forall t | t in ts[..n]
      ensures CanMap(env, t)
    {
      var i :| 0 <= i < n && ts[..n][i] == t;
      assert ts[i] in ts;
    }
  }

  /** One tag per label id, in label order, each name passed through the tag mapping. */
  function Tags(env: Env, labels: seq<LabelId>): (tags: seq<string>)
    ensures |tags| == |labels|
    ensures forall i :: 0 <= i < |labels| ==> tags[i] == Utils.TryMap(env.mapTag, env.cv.labelName(labels[i]))
  {
    seq(|labels|, i requires 0 <= i < |labels| => Utils.TryMap(env.mapTag, env.cv.labelName(labels[i])))
  }

  /** `map_to_tw`. */
  function MapToTw(env: Env, t: RemoteTask): (data: Payload)
    requires CanMap(env, t)
    ensures data.tid == t.id
    ensures data.description == t.content
    ensures data.project == env.cv.quoteWs(Gateways.ProjectName(env.projects, t.projectId, env.mapProject))
    ensures data.priority == env.cv.parsePriority(t.priority)
    ensures data.entry == env.cv.parseDate(t.dateAdded)
    ensures data.due == env.cv.parseDue(t.due) && data.recur == env.cv.recurOrPrompt(t.due)
    ensures |data.tags| == |t.labels|
    ensures forall i :: 0 <= i < |t.labels| ==> data.tags[i] == Utils.TryMap(env.mapTag, env.cv.labelName(t.labels[i]))
  {
    Payload(
      tid := t.id,
      description := t.content,
      project := env.cv.quoteWs(Gateways.ProjectName(env.projects, t.projectId, env.mapProject)),
      priority := env.cv.parsePriority(t.priority),
      entry := env.cv.parseDate(t.dateAdded),
      due := env.cv.parseDue(t.due),
      recur := env.cv.recurOrPrompt(t.due),
      tags := Tags(env, t.labels))
  }

  /** The payload never reads the completion flag. */
  lemma PayloadIgnoresChecked(env: Env, t: RemoteTask, checked: int)
    requires CanMap(env, t)
    ensures CanMap(env, t.(checked := checked))
    ensures MapToTw(env, t.(checked := checked)) == MapToTw(env, t)
  {
  }

  /** Without a tag mapping the tags are the label names, in label order. */
  lemma TagsAreLabelNames(env: Env, t: RemoteTask)
    requires CanMap(env, t)
    requires |env.mapTag| == 0
    ensures forall i :: 0 <= i < |t.labels| ==> MapToTw(env, t).tags[i] == env.cv.labelName(t.labels[i])
  {
  }

  /**
   * A label mapped to the empty string keeps its place as an empty tag: the
   * list comprehension emits one entry per label and filters nothing.
   */
  lemma RemovedTagLeavesEmptyEntry(env: Env, t: RemoteTask)
    requires CanMap(env, t)
    requires t.labels == [1, 2]
    requires env.cv.labelName(1) == "urgent" && env.cv.labelName(2) == "home"
    requires env.mapTag == map["home" := ""]
    ensures MapToTw(env, t).tags == ["urgent", ""]
  {
  }
}
