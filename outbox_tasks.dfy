/** The queue tasks of the outbox: soft-delete propagation, the fallback
  * publisher, project creation, annual leave grants and the hourly grant
  * job. Each `process_*` task loads its event by id; an id with no row is
  * only logged. Anything raised after that is caught, the event is marked
  * FAILED with a generic message and, while retries remain, the task asks
  * the queue to run it again. */
module OutboxTasks {
  import opened Common
  import opened Sorting
  import opened Calendar
  import opened OutboxModels
  import opened OutboxServices
  import opened Propagation
  import opened Org
  import LeaveRules
  import opened LeaveLedger

  /** How a task run ended. */
  datatype Outcome =
    | NoEvent            // `OutboxEvent.DoesNotExist`: logged, nothing changes
    | Skipped            // the event was already PROCESSED
    | GaveUp             // a named lookup failed: FAILED, no retry requested
    | Retry(again: bool) // anything else raised: FAILED; `again` when `self.retry` is raised
    | Done               // the work is stored and the event is PROCESSED

  /** The text of the catch-all handler (the event id and the exception text
    * it appends are not modelled). */
  const ERROR_PROCESSING: string := "Error processing outbox event"

  function ModelNotFound(app: string, name: string): string {
    "Model " + app + "." + name + " not found"
  }

  function InstanceNotFound(name: string): string {
    "Instance " + name + " not found"
  }

  const PROJECT_NOT_FOUND: string := "Project not found"
  const USER_NOT_FOUND: string := "User not found"

  /** `event_data[key]`: `None` stands for the `KeyError` (or `TypeError` when
    * the data is not an object) that subscripting raises. */
  function Field(data: Json, key: string): Option<Json> {
    if data.JObj? && key in data.fields then Some(data.fields[key]) else None
  }

  /** Load the event, apply `mark_as_failed`, save. */
  method FailEvent(outbox: OutboxStore, id: int, message: string, now: Time)
    requires outbox.Valid() && 0 <= id < |outbox.events|
    modifies outbox
    ensures outbox.Valid()
    ensures outbox.events == old(outbox.events)[id := Failed(old(outbox.events)[id], message, now)]
  {
    var event := new OutboxEvent(outbox.events[id]);
    event.MarkAsFailed(message, now);
    outbox.events := outbox.events[id := event.Row()];
  }

  /** Load the event, apply `mark_as_processed`, save. */
  method FinishEvent(outbox: OutboxStore, id: int, now: Time)
    requires outbox.Valid() && 0 <= id < |outbox.events|
    modifies outbox
    ensures outbox.Valid()
    ensures outbox.events == old(outbox.events)[id := Processed(old(outbox.events)[id], now)]
  {
    var event := new OutboxEvent(outbox.events[id]);
    event.MarkAsProcessed(now);
    outbox.events := outbox.events[id := event.Row()];
  }

  /** The catch-all handler: mark the event FAILED and ask for a retry while
    * `should_retry` holds. */
  method FailForRetry(outbox: OutboxStore, id: int, now: Time) returns (r: Outcome)
    requires outbox.Valid() && 0 <= id < |outbox.events|
    modifies outbox
    ensures outbox.Valid()
    ensures outbox.events == old(outbox.events)[id := Failed(old(outbox.events)[id], ERROR_PROCESSING, now)]
    ensures r == Retry(ShouldRetry(outbox.events[id]))
  {
    FailEvent(outbox, id, ERROR_PROCESSING, now);
    var event := new OutboxEvent(outbox.events[id]);
    var again := event.CanRetry();
    r := Retry(again);
  }

  // ---------------------------------------------------------------------
  // process_soft_delete_propagation

  /** How Django reads `v` in `get(pk=v)` on an integer primary key: `None`
    * matches no row, a value `int` accepts is that key, and anything else
    * raises. */
  datatype KeyLookup = NoRow | Key(pk: int) | Unusable

  function KeyOf(v: Json): (r: KeyLookup)
    ensures r == NoRow <==> v.JNull?
    ensures r.Key? <==> IntOf(v).Some?
    ensures r.Key? ==> r.pk == IntOf(v).value
  {
    if v.JNull? then NoRow
    else if IntOf(v).Some? then Key(IntOf(v).value)
    else Unusable
  }

  /** `str.lower()` on ASCII letters. */
  function Lower(s: string): (r: string)
    ensures |r| == |s|
    ensures forall k :: 0 <= k < |s| ==> r[k] == if 'A' <= s[k] <= 'Z' then (s[k] as int + 32) as char else s[k]
  {
    if s == [] then []
    else
      var c := s[|s| - 1];
      Lower(s[..|s| - 1]) + [if 'A' <= c <= 'Z' then (c as int + 32) as char else c]
  }

  /** The number of dots in `s`. */
  function Dots(s: string): nat {
    if s == [] then 0 else (if s[0] == '.' then 1 else 0) + Dots(s[1..])
  }

  /** `a, b = s.split(".")`: the two parts around the only dot, `None` where
    * the unpacking raises `ValueError`. */
  function SplitOnDot(s: string): (r: Option<(string, string)>)
    ensures r.Some? <==> Dots(s) == 1
    ensures r.Some? ==> s == r.value.0 + "." + r.value.1 && Dots(r.value.0) == 0 && Dots(r.value.1) == 0
  {
    if s == [] then None
    else if s[0] == '.' then
      if Dots(s[1..]) == 0 then Some(([], s[1..])) else None
    else
      match SplitOnDot(s[1..])
      case None => None
      case Some(parts) =>
        assert s == [s[0]] + s[1..];
        Some(([s[0]] + parts.0, parts.1))
  }

  /** The app labels that have installed models. */
  function AppLabels(models: map<(string, string), string>): set<string> {
    set key | key in models :: key.0
  }

  /** What `apps.get_model(app_label, model_name)` does. */
  datatype ModelLookup =
    | ModelFound(cls: string)   // the model class
    | NotInstalled              // `LookupError`: no such app label, or no such model in it
    | WrongKind                 // another exception, raised on a value of the wrong kind

  /** `apps.get_model(app, name)` over the installed `models`, keyed by app
    * label and lower-cased model name. A `None` name makes it split the
    * label at its dot. The label is looked up in a dictionary of string
    * labels, so any other hashable label is not installed, and an unhashable
    * one raises `TypeError`. The name is lower-cased, so a name that is not
    * a string raises `AttributeError`. */
  function GetModel(app: Json, name: Json, models: map<(string, string), string>): (r: ModelLookup)
    decreases if name.JNull? then 1 else 0
    ensures app.JStr? && name.JStr? ==>
              (r.ModelFound? <==> (app.s, Lower(name.s)) in models)
              && (r.ModelFound? ==> r.cls == models[(app.s, Lower(name.s))])
              && !r.WrongKind?
    ensures (app.JNull? || app.JBool? || app.JInt?) && !name.JNull? ==> r == NotInstalled
    ensures app.JList? || app.JObj? ==> r == WrongKind
    ensures app.JStr? && app.s in AppLabels(models) && !name.JNull? && !name.JStr? ==> r == WrongKind
    ensures app.JStr? && app.s !in AppLabels(models) && !name.JNull? ==> r == NotInstalled
    ensures name.JNull? && app.JStr? && Dots(app.s) != 1 ==> r == WrongKind
    ensures name.JNull? && app.JStr? && Dots(app.s) == 1 ==>
              var parts := SplitOnDot(app.s).value;
              r == GetModel(JStr(parts.0), JStr(parts.1), models)
  {
    if name.JNull? then
      if !app.JStr? then WrongKind
      else
        match SplitOnDot(app.s)
        case None => WrongKind
        case Some(parts) => GetModel(JStr(parts.0), JStr(parts.1), models)
    else if app.JList? || app.JObj? then WrongKind
    else if !app.JStr? || app.s !in AppLabels(models) then NotInstalled
    else if !name.JStr? then WrongKind
    else if (app.s, Lower(name.s)) in models then ModelFound(models[(app.s, Lower(name.s))])
    else NotInstalled
  }

  /** `str(v)` as an f-string shows a JSON scalar. */
  function Show(v: Json): string {
    match v
    case JNull => "None"
    case JBool(b) => if b then "True" else "False"
    case JInt(i) => ShowInt(i)
    case JStr(s) => s
    case _ => ""
  }

  /** What the event data of a soft-delete event designates. */
  datatype Target =
    | Malformed                                  // a key is missing, or a value of the wrong kind raised
    | UnknownModel(app: string, name: string)    // `apps.get_model` raised `LookupError`
    | NoInstance(name: string)                   // `model.objects.get(pk=…)` raised `DoesNotExist`
    | Instance(node: Node)

  /** Reads `model_app`, `model_name` and `instance_id`, then looks the model
    * up with `GetModel` and the row in the graph. */
  function ResolveTarget(data: Json, models: map<(string, string), string>, graph: Graph): (t: Target)
    ensures (Field(data, "model_app").None? || Field(data, "model_name").None?
             || Field(data, "instance_id").None?) ==> t == Malformed
    ensures t.Instance? ==>
              t.node in graph
              && Field(data, "model_app").Some? && Field(data, "model_name").Some? && Field(data, "instance_id").Some?
              && GetModel(Field(data, "model_app").value, Field(data, "model_name").value, models)
                 == ModelFound(t.node.model)
              && KeyOf(Field(data, "instance_id").value) == Key(t.node.pk)
    ensures t.UnknownModel? ==>
              Field(data, "model_app").Some? && Field(data, "model_name").Some? && Field(data, "instance_id").Some?
              && GetModel(Field(data, "model_app").value, Field(data, "model_name").value, models) == NotInstalled
              && t.app == Show(Field(data, "model_app").value) && t.name == Show(Field(data, "model_name").value)
    ensures Field(data, "model_app").Some? && Field(data, "model_name").Some? && Field(data, "instance_id").Some?
            && GetModel(Field(data, "model_app").value, Field(data, "model_name").value, models) == NotInstalled
            ==> t.UnknownModel?
    ensures Field(data, "model_app").Some? && Field(data, "model_name").Some? && Field(data, "instance_id").Some?
            && GetModel(Field(data, "model_app").value, Field(data, "model_name").value, models) == WrongKind
            ==> t == Malformed
    ensures Field(data, "instance_id").Some? && KeyOf(Field(data, "instance_id").value).Unusable?
            ==> t.Malformed? || t.UnknownModel?
  {
    var app := Field(data, "model_app");
    var name := Field(data, "model_name");
    var pk := Field(data, "instance_id");
    if app.None? || name.None? || pk.None? then Malformed
    else
      match GetModel(app.value, name.value, models)
      case WrongKind => Malformed
      case NotInstalled => UnknownModel(Show(app.value), Show(name.value))
      case ModelFound(cls) =>
        match KeyOf(pk.value)
        case Unusable => Malformed
        case NoRow => NoInstance(Show(name.value))
        case Key(k) =>
          var node := Node(cls, k);
          if node in graph then Instance(node) else NoInstance(Show(name.value))
  }

  /** An event whose `instance_id` is `str(pk)`, as the soft-delete event
    * stores it, designates row `pk` of the installed model. */
  lemma {:induction false} StringIdResolves(data: Json, models: map<(string, string), string>, graph: Graph,
                                            app: string, name: string, pk: int)
    requires Field(data, "model_app") == Some(JStr(app)) && Field(data, "model_name") == Some(JStr(name))
    requires (app, Lower(name)) in models
    requires Field(data, "instance_id") == Some(JStr(ShowInt(pk)))
    ensures var node := Node(models[(app, Lower(name))], pk);
            ResolveTarget(data, models, graph) == if node in graph then Instance(node) else NoInstance(name)
  {
    ParseShow(pk);
  }

  /** A label that is `None`, a number or a boolean names no installed app:
    * `get_model` raises `LookupError`, so the event fails for good. */
  lemma {:induction false} NonStringLabelNotInstalled(data: Json, models: map<(string, string), string>, graph: Graph,
                                                      name: string)
    requires Field(data, "model_app").Some? && !Field(data, "model_app").value.JStr?
    requires !Field(data, "model_app").value.JList? && !Field(data, "model_app").value.JObj?
    requires Field(data, "model_name") == Some(JStr(name)) && Field(data, "instance_id").Some?
    ensures ResolveTarget(data, models, graph) == UnknownModel(Show(Field(data, "model_app").value), name)
  {
    assert GetModel(Field(data, "model_app").value, JStr(name), models) == NotInstalled;
  }

  /** With no model name, a label `"app.Model"` designates what the pair
    * `("app", "Model")` designates. */
  lemma {:induction false} DottedLabelResolves(app: string, name: string, models: map<(string, string), string>)
    requires Dots(app) == 0 && Dots(name) == 0
    ensures GetModel(JStr(app + "." + name), JNull, models) == GetModel(JStr(app), JStr(name), models)
  {
    SplitAround(app, name);
  }

  /** A string with one dot splits around it. */
  lemma {:induction false} SplitAround(a: string, b: string)
    requires Dots(a) == 0 && Dots(b) == 0
    ensures SplitOnDot(a + "." + b) == Some((a, b))
  {
    var s := a + "." + b;
    if a == [] {
      assert s[1..] == b;
    } else {
      assert s[1..] == a[1..] + "." + b;
      SplitAround(a[1..], b);
      assert [a[0]] + a[1..] == a;
    }
  }

  /** `process_soft_delete_propagation`. On success `trail` lists the rows
    * the walk entered, in order, starting with the deleted row. */
  method ProcessSoftDeletePropagation(outbox: OutboxStore, rows: RowStore, id: int,
                                      models: map<(string, string), string>, now: Time)
    returns (r: Outcome, ghost trail: seq<Node>)
    requires outbox.Valid() && rows.Valid()
    modifies outbox, rows
    ensures outbox.Valid() && rows.Valid()
    ensures r != Done ==> rows.stamps == old(rows.stamps)
    ensures !(0 <= id < |old(outbox.events)|) ==> r == NoEvent && outbox.events == old(outbox.events)
    ensures 0 <= id < |old(outbox.events)| && old(outbox.events)[id].status == PROCESSED ==>
              r == Skipped && outbox.events == old(outbox.events)
    ensures 0 <= id < |old(outbox.events)| && old(outbox.events)[id].status != PROCESSED ==>
              var e := old(outbox.events)[id];
              var t := ResolveTarget(e.eventData, models, rows.graph);
              (t.Malformed? ==>
                 r == Retry(ShouldRetry(Failed(e, ERROR_PROCESSING, now)))
                 && outbox.events == old(outbox.events)[id := Failed(e, ERROR_PROCESSING, now)])
              && (t.UnknownModel? ==>
                    r == GaveUp && outbox.events == old(outbox.events)[id := Failed(e, ModelNotFound(t.app, t.name), now)])
              && (t.NoInstance? ==>
                    r == GaveUp && outbox.events == old(outbox.events)[id := Failed(e, InstanceNotFound(t.name), now)])
              && (t.Instance? ==> r == Done && outbox.events == old(outbox.events)[id := Processed(e, now)])
    ensures r == Done ==>
              // the walk starts at the deleted row and enters only rows related to rows entered before
              |trail| > 0 && Chain(rows.graph, trail)
              && trail[0] == ResolveTarget(old(outbox.events)[id].eventData, models, rows.graph).node
              // only rows the walk entered change, each from live to deleted at `now`
              && rows.stamps.Keys == old(rows.stamps).Keys
              && (forall m :: m in old(rows.stamps) && rows.stamps[m] != old(rows.stamps)[m] ==>
                    m in trail && old(rows.stamps)[m].None? && rows.stamps[m] == Some(now))
              // every row that was live and is related to an entered row was entered and is deleted
              && (forall k, c :: (0 <= k < |trail| && c in Kids(rows.graph, trail[k]) && c in old(rows.stamps)
                                   && old(rows.stamps)[c].None?) ==> c in trail && rows.stamps[c].Some?)
  {
    trail := [];
    if !(0 <= id < |outbox.events|) {
      return NoEvent, [];
    }
    var e := outbox.events[id];
    if e.status == PROCESSED {
      return Skipped, [];
    }
    var t := ResolveTarget(e.eventData, models, rows.graph);
    match t
    case Malformed =>
      r := FailForRetry(outbox, id, now);
    case UnknownModel(app, name) =>
      FailEvent(outbox, id, ModelNotFound(app, name), now);
      r := GaveUp;
    case NoInstance(name) =>
      FailEvent(outbox, id, InstanceNotFound(name), now);
      r := GaveUp;
    case Instance(root) =>
      ghost var d0 := rows.stamps;
      var out;
      out, trail := Propagate(rows, root, {}, now);
      WalkIsClosed(rows.graph, d0, rows.stamps, now, out, trail);
      FinishEvent(outbox, id, now);
      r := Done;
  }

  // ---------------------------------------------------------------------
  // publish_outbox_messages

  /** Only events created more than this many seconds ago are republished. */
  const REPUBLISH_DELAY: int := 10

  /** PENDING, never published, and created more than ten seconds before `now`. */
  predicate IsDue(e: EventRow, now: Time) {
    e.status == PENDING && e.publishedAt.None? && e.createdAt < now - REPUBLISH_DELAY
  }

  /** The fallback's first query: due events, oldest first, at most 100. */
  function DuePending(events: seq<EventRow>, now: Time): (r: seq<int>)
    ensures |r| <= DEFAULT_LIMIT && Distinct(r)
    ensures forall k :: 0 <= k < |r| ==> 0 <= r[k] < |events| && IsDue(events[r[k]], now)
    ensures forall j, k :: 0 <= j < k < |r| ==> events[r[j]].createdAt <= events[r[k]].createdAt
    ensures |r| < DEFAULT_LIMIT ==> forall i :: 0 <= i < |events| && IsDue(events[i], now) ==> i in r
  {
    var all := Query(events, (e: EventRow) => IsDue(e, now), (e: EventRow) => e.createdAt);
    TakeKeepsDistinct(all, DEFAULT_LIMIT);
    Take(all, DEFAULT_LIMIT)
  }

  /** Whether handing the task for an event to the queue succeeds: `dispatch`
    * gives the queue's task id, or `None` when `delay` raised. */
  function Sends(dispatch: int -> Option<string>): int -> bool {
    (id: int) => dispatch(id).Some?
  }

  /** The events after republishing `ids` in order: each one the queue
    * accepted is marked PUBLISHED with its task id; the others are left as
    * they were. */
  function Republish(events: seq<EventRow>, ids: seq<int>, dispatch: int -> Option<string>, now: Time): (r: seq<EventRow>)
    requires forall k :: 0 <= k < |ids| ==> 0 <= ids[k] < |events|
    ensures |r| == |events|
    decreases |ids|
  {
    if ids == [] then events
    else
      var prev := Republish(events, ids[..|ids| - 1], dispatch, now);
      var id := ids[|ids| - 1];
      if dispatch(id).Some? then prev[id := Published(prev[id], dispatch(id), now)] else prev
  }

  /** Publishing twice with the same task id at the same time is publishing once. */
  lemma {:induction false} PublishedTwice(e: EventRow, taskId: Option<string>, now: Time)
    ensures Published(Published(e, taskId, now), taskId, now) == Published(e, taskId, now)
  {
  }

  /** Event by event: republished exactly when selected and accepted by the
    * queue, whatever the order of `ids` and however often an id occurs. */
  lemma {:induction false} RepublishAt(events: seq<EventRow>, ids: seq<int>, dispatch: int -> Option<string>,
                                       now: Time, i: int)
    requires forall k :: 0 <= k < |ids| ==> 0 <= ids[k] < |events|
    requires 0 <= i < |events|
    ensures Republish(events, ids, dispatch, now)[i] ==
              if i in ids && dispatch(i).Some? then Published(events[i], dispatch(i), now) else events[i]
    decreases |ids|
  {
    if ids != [] {
      var init := ids[..|ids| - 1];
      RepublishAt(events, init, dispatch, now, i);
      assert i in ids <==> i in init || i == ids[|ids| - 1];
      if i == ids[|ids| - 1] && dispatch(i).Some? && i in init {
        PublishedTwice(events[i], dispatch(i), now);
      }
    }
  }

  /** Republishing keeps each row's id. */
  lemma {:induction false} RepublishKeepsIds(events: seq<EventRow>, ids: seq<int>, dispatch: int -> Option<string>, now: Time)
    requires forall k :: 0 <= k < |ids| ==> 0 <= ids[k] < |events|
    requires forall i :: 0 <= i < |events| ==> events[i].id == i
    ensures forall i :: 0 <= i < |events| ==> Republish(events, ids, dispatch, now)[i].id == i
  {
    forall i | 0 <= i < |events|
      ensures Republish(events, ids, dispatch, now)[i].id == i
    {
      RepublishAt(events, ids, dispatch, now, i);
    }
  }

  /** One loop of the fallback: hand each event of `ids` to the queue and
    * mark the accepted ones PUBLISHED, first setting them PENDING when
    * `reset` is given; count the accepted ones. */
  method RepublishEach(outbox: OutboxStore, ids: seq<int>, dispatch: int -> Option<string>, now: Time, reset: bool)
    returns (n: nat)
    requires outbox.Valid()
    requires forall k :: 0 <= k < |ids| ==> 0 <= ids[k] < |outbox.events|
    modifies outbox
    ensures outbox.Valid()
    ensures outbox.events == Republish(old(outbox.events), ids, dispatch, now)
    ensures n == Count(ids, Sends(dispatch))
  {
    ghost var start := outbox.events;
    n := 0;
    var i := 0;
    while i < |ids|
      invariant 0 <= i <= |ids|
      invariant outbox.events == Republish(start, ids[..i], dispatch, now)
      invariant n == Count(ids[..i], Sends(dispatch))
    {
      assert ids[..i + 1] == ids[..i] + [ids[i]];
      assert ids[..i + 1][..i] == ids[..i];
      CountSnoc(ids[..i], ids[i], Sends(dispatch));
      var taskId := dispatch(ids[i]);
      if taskId.Some? {
        var event := new OutboxEvent(outbox.events[ids[i]]);
        if reset {
          event.status := PENDING;
        }
        event.MarkAsPublished(taskId, now);
        outbox.events := outbox.events[ids[i] := event.Row()];
        n := n + 1;
      }
      i := i + 1;
    }
    assert ids[..i] == ids;
    RepublishKeepsIds(start, ids, dispatch, now);
  }

  /** `publish_outbox_messages`: republish the due PENDING events, then the
    * FAILED events with retries left (the FAILED ones get status PENDING
    * before `mark_as_published`); count the events each loop republished. */
  method PublishOutboxMessages(outbox: OutboxStore, dispatch: int -> Option<string>, now: Time)
    returns (republished: nat, retried: nat)
    requires outbox.Valid()
    modifies outbox
    ensures outbox.Valid()
    ensures var due := DuePending(old(outbox.events), now);
            var mid := Republish(old(outbox.events), due, dispatch, now);
            var again := GetFailedEventsForRetry(mid, DEFAULT_LIMIT);
            outbox.events == Republish(mid, again, dispatch, now)
            && republished == Count(due, Sends(dispatch))
            && retried == Count(again, Sends(dispatch))
  {
    var due := DuePending(outbox.events, now);
    republished := RepublishEach(outbox, due, dispatch, now, false);
    var again := GetFailedEventsForRetry(outbox.events, DEFAULT_LIMIT);
    retried := RepublishEach(outbox, again, dispatch, now, true);
  }

  // ---------------------------------------------------------------------
  // process_project_creation

  /** A `ProjectSales` or `ProjectDesign` row: its project, the fields that
    * `**sales_data` or `**design_data` set, and `deleted_at`. */
  datatype Attached = Attached(project: int, data: Json, deletedAt: Option<Time>)

  predicate HasActive(rows: seq<Attached>, p: int) {
    exists k :: 0 <= k < |rows| && rows[k].project == p && rows[k].deletedAt.None?
  }

  /** The rows after "create unless an active one exists". */
  function Attach(rows: seq<Attached>, p: int, data: Json): (r: seq<Attached>)
    ensures HasActive(r, p)
    ensures rows <= r && |r| <= |rows| + 1
    ensures HasActive(rows, p) <==> r == rows
  {
    if HasActive(rows, p) then rows
    else
      var r := rows + [Attached(p, data, None)];
      assert r[|rows|].project == p;
      r
  }

  /** Attaching again for the same project changes nothing, whatever the data. */
  lemma {:induction false} AttachIdempotent(rows: seq<Attached>, p: int, data: Json, data': Json)
    ensures Attach(Attach(rows, p, data), p, data') == Attach(rows, p, data)
  {
  }

  /** The projects (their `deleted_at`), sales records and design records. */
  class ProjectStore {
    var projects: seq<Option<Time>>
    var sales: seq<Attached>
    var designs: seq<Attached>

    constructor (projects0: seq<Option<Time>>, sales0: seq<Attached>, designs0: seq<Attached>)
      ensures projects == projects0 && sales == sales0 && designs == designs0
    {
      projects, sales, designs := projects0, sales0, designs0;
    }
  }

  /** The data reads as a usable project key with sales and design data,
    * and the `**` expansion of the data is needed only for a record that is
    * missing. */
  predicate CreationData(data: Json, store: seq<Option<Time>>, sales: seq<Attached>, designs: seq<Attached>) {
    var pid := Field(data, "project_id");
    var sd := Field(data, "sales_data");
    var dd := Field(data, "design_data");
    pid.Some? && sd.Some? && dd.Some? && !KeyOf(pid.value).Unusable?
    && (LiveProject(store, KeyOf(pid.value)) ==>
          (HasActive(sales, KeyOf(pid.value).pk) || sd.value.JObj?)
          && (HasActive(designs, KeyOf(pid.value).pk) || dd.value.JObj?))
  }

  /** `Project.objects.get(pk=…, deleted_at__isnull=True)` finds a row. */
  predicate LiveProject(store: seq<Option<Time>>, key: KeyLookup) {
    key.Key? && 0 <= key.pk < |store| && store[key.pk].None?
  }

  /** `process_project_creation`: for a live project, create its sales record
    * and its design record unless an active one exists, then mark the event
    * PROCESSED. */
  method ProcessProjectCreation(outbox: OutboxStore, store: ProjectStore, id: int, now: Time) returns (r: Outcome)
    requires outbox.Valid()
    modifies outbox, store
    ensures outbox.Valid() && store.projects == old(store.projects)
    ensures r != Done ==> store.sales == old(store.sales) && store.designs == old(store.designs)
    ensures !(0 <= id < |old(outbox.events)|) ==> r == NoEvent && outbox.events == old(outbox.events)
    ensures 0 <= id < |old(outbox.events)| && old(outbox.events)[id].status == PROCESSED ==>
              r == Skipped && outbox.events == old(outbox.events)
    ensures 0 <= id < |old(outbox.events)| && old(outbox.events)[id].status != PROCESSED ==>
              var e := old(outbox.events)[id];
              var pid := Field(e.eventData, "project_id");
              (!CreationData(e.eventData, store.projects, old(store.sales), old(store.designs)) ==>
                 r == Retry(ShouldRetry(Failed(e, ERROR_PROCESSING, now)))
                 && outbox.events == old(outbox.events)[id := Failed(e, ERROR_PROCESSING, now)])
              && (CreationData(e.eventData, store.projects, old(store.sales), old(store.designs))
                  && !LiveProject(store.projects, KeyOf(pid.value)) ==>
                    r == GaveUp && outbox.events == old(outbox.events)[id := Failed(e, PROJECT_NOT_FOUND, now)])
              && (CreationData(e.eventData, store.projects, old(store.sales), old(store.designs))
                  && LiveProject(store.projects, KeyOf(pid.value)) ==>
                    r == Done && outbox.events == old(outbox.events)[id := Processed(e, now)]
                    && store.sales == Attach(old(store.sales), KeyOf(pid.value).pk, Field(e.eventData, "sales_data").value)
                    && store.designs == Attach(old(store.designs), KeyOf(pid.value).pk, Field(e.eventData, "design_data").value))
  {
    if !(0 <= id < |outbox.events|) {
      return NoEvent;
    }
    var e := outbox.events[id];
    if e.status == PROCESSED {
      return Skipped;
    }
    var pid := Field(e.eventData, "project_id");
    var sd := Field(e.eventData, "sales_data");
    var dd := Field(e.eventData, "design_data");
    if pid.None? || sd.None? || dd.None? || KeyOf(pid.value).Unusable? {
      r := FailForRetry(outbox, id, now);
      return;
    }
    var key := KeyOf(pid.value);
    if !LiveProject(store.projects, key) {
      FailEvent(outbox, id, PROJECT_NOT_FOUND, now);
      return GaveUp;
    }
    var p := key.pk;
    // the atomic block: a failure in it keeps nothing it created
    var sales := store.sales;
    if !HasActive(sales, p) {
      if !sd.value.JObj? {
        r := FailForRetry(outbox, id, now);
        return;
      }
      sales := sales + [Attached(p, sd.value, None)];
    }
    var designs := store.designs;
    if !HasActive(designs, p) {
      if !dd.value.JObj? {
        r := FailForRetry(outbox, id, now);
        return;
      }
      designs := designs + [Attached(p, dd.value, None)];
    }
    store.sales, store.designs := sales, designs;
    FinishEvent(outbox, id, now);
    r := Done;
  }

  /** A second run on the same data after a completed one creates nothing:
    * both records already exist. */
  lemma {:induction false} ProjectCreationRerun(sales: seq<Attached>, designs: seq<Attached>, p: int, sd: Json, dd: Json)
    ensures Attach(Attach(sales, p, sd), p, sd) == Attach(sales, p, sd)
    ensures Attach(Attach(designs, p, dd), p, dd) == Attach(designs, p, dd)
  {
    AttachIdempotent(sales, p, sd, sd);
    AttachIdempotent(designs, p, dd, dd);
  }

  // ---------------------------------------------------------------------
  // process_annual_leave_grant

  /** `process_annual_leave_grant`: `fromIsoFormat` is `date.fromisoformat`
    * (`None` where it raises). For a live user, store the grant the accrual
    * rule makes for the target date (possibly none), then mark the event
    * PROCESSED. */
  method ProcessAnnualLeaveGrant(outbox: OutboxStore, org: Org, ledger: Ledger, id: int,
                                 fromIsoFormat: string -> Option<Day>, now: Time) returns (r: Outcome)
    requires outbox.Valid() && org.Valid() && ledger.Valid()
    modifies outbox, ledger
    ensures outbox.Valid() && ledger.Valid()
    ensures ledger.requests == old(ledger.requests) && ledger.usages == old(ledger.usages)
    ensures r != Done ==> ledger.grants == old(ledger.grants)
    ensures !(0 <= id < |old(outbox.events)|) ==> r == NoEvent && outbox.events == old(outbox.events)
    ensures 0 <= id < |old(outbox.events)| && old(outbox.events)[id].status == PROCESSED ==>
              r == Skipped && outbox.events == old(outbox.events)
    ensures 0 <= id < |old(outbox.events)| && old(outbox.events)[id].status != PROCESSED ==>
              var e := old(outbox.events)[id];
              var uid := Field(e.eventData, "user_id");
              var ds := Field(e.eventData, "target_date");
              var parsed := uid.Some? && IntOf(uid.value).Some? && ds.Some? && ds.value.JStr?
                            && fromIsoFormat(ds.value.s).Some?;
              var u := if parsed then IntOf(uid.value).value else -1;
              var live := parsed && 0 <= u < |org.users| && org.users[u].deletedAt.None?;
              var plan := if live then LeaveRules.PlanAnnualGrant(org.users[u].joinedAt, fromIsoFormat(ds.value.s).value)
                          else Err(LeaveRules.NoJoinDate);
              (parsed && !live ==>
                 r == GaveUp && outbox.events == old(outbox.events)[id := Failed(e, USER_NOT_FOUND, now)])
              && ((!parsed || (live && plan.Err?)) ==>
                    r == Retry(ShouldRetry(Failed(e, ERROR_PROCESSING, now)))
                    && outbox.events == old(outbox.events)[id := Failed(e, ERROR_PROCESSING, now)])
              && (live && plan.Ok? ==>
                    r == Done && outbox.events == old(outbox.events)[id := Processed(e, now)]
                    && (plan.value.None? ==> ledger.grants == old(ledger.grants))
                    && (plan.value.Some? ==>
                          ledger.grants == old(ledger.grants) + [LeaveRules.Grant(u, LeaveRules.ANNUAL, plan.value.value.days,
                                                                                  plan.value.value.days, now,
                                                                                  plan.value.value.expiresAt, None)]))
  {
    if !(0 <= id < |outbox.events|) {
      return NoEvent;
    }
    var e := outbox.events[id];
    if e.status == PROCESSED {
      return Skipped;
    }
    var uid := Field(e.eventData, "user_id");
    var ds := Field(e.eventData, "target_date");
    if uid.None? || IntOf(uid.value).None? || ds.None? || !ds.value.JStr? || fromIsoFormat(ds.value.s).None? {
      r := FailForRetry(outbox, id, now);
      return;
    }
    var u := IntOf(uid.value).value;
    var target := fromIsoFormat(ds.value.s).value;
    if !(0 <= u < |org.users| && org.users[u].deletedAt.None?) {
      FailEvent(outbox, id, USER_NOT_FOUND, now);
      return GaveUp;
    }
    var grants := ledger.CreateAnnualLeaveGrant(u, org.users[u].joinedAt, target, now);
    if grants.Err? {
      r := FailForRetry(outbox, id, now);
      return;
    }
    FinishEvent(outbox, id, now);
    r := Done;
  }

  // ---------------------------------------------------------------------
  // process_hourly_annual_leave_grants

  /** Not deleted, not locked, and with a join date. */
  predicate GrantCandidate(u: User) {
    u.deletedAt.None? && !u.accountLocked && u.joinedAt.Some?
  }

  /** The ids of the candidate users, in table order. */
  function Candidates(users: seq<User>): (r: seq<int>)
    ensures forall i :: i in r <==> 0 <= i < |users| && GrantCandidate(users[i])
    ensures forall k :: 0 <= k < |r| ==> 0 <= r[k] < |users|
    ensures forall j, k :: 0 <= j < k < |r| ==> r[j] < r[k]
    decreases |users|
  {
    if users == [] then []
    else
      var init := Candidates(users[..|users| - 1]);
      assert forall i :: 0 <= i < |users| - 1 ==> users[..|users| - 1][i] == users[i];
      if GrantCandidate(users[|users| - 1]) then init + [|users| - 1] else init
  }

  /** `process_hourly_annual_leave_grants`: one event-creation call per
    * candidate user; `enqueue(id)` says whether that call returned for user
    * `id` (the call names a service function that this code base does not
    * define, so as written it raises every time). Returns the two counters
    * and the number of candidates. */
  method ProcessHourlyAnnualLeaveGrants(org: Org, enqueue: int -> bool)
    returns (created: nat, errors: nat, total: nat)
    ensures total == |Candidates(org.users)|
    ensures created + errors == total
    ensures created == Count(Candidates(org.users), enqueue)
    ensures errors == total - Count(Candidates(org.users), enqueue)
  {
    var active := Candidates(org.users);
    created, errors := 0, 0;
    var i := 0;
    while i < |active|
      invariant 0 <= i <= |active|
      invariant created + errors == i
      invariant created == Count(active[..i], enqueue)
    {
      assert active[..i + 1] == active[..i] + [active[i]];
      CountSnoc(active[..i], active[i], enqueue);
      if enqueue(active[i]) {
        created := created + 1;
      } else {
        errors := errors + 1;
      }
      i := i + 1;
    }
    assert active[..i] == active;
    total := |active|;
  }
}
