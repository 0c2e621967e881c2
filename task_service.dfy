/**
 * Task mutation and listing: the task list query, bulk reordering, creation
 * with an automatic position, and the field-by-field update that writes one
 * audit row per changed tracked field and mails a new assignee.
 */
module TaskService {
  import opened Common
  import opened Text
  import opened Schema
  import Sorting

  // ---------------------------------------------------------------------------
  // Listing
  // ---------------------------------------------------------------------------

  /** The filters `getTasks` reads; an absent or null key is `None`. */
  datatype TaskFilters = TaskFilters(
    projectId: Option<Id>,
    assigneeId: Option<Id>,
    assigneeIds: Option<seq<Id>>,
    statusIds: Option<seq<Id>>,
    dateCreatedStart: Option<Date>,
    dateCreatedEnd: Option<Date>,
    dateUpdatedStart: Option<Date>,
    dateUpdatedEnd: Option<Date>,
    dueDateStart: Option<Date>,
    dueDateEnd: Option<Date>)

  /** The three columns the list can be bounded on, and the two ends of a bound. */
  datatype DateColumn = CreatedAt | UpdatedAt | DueDate
  datatype BoundEnd = Start | End

  /** The request key `getTasks` reads each date bound from. */
  function FilterKey(c: DateColumn, e: BoundEnd): string {
    match (c, e)
    case (CreatedAt, Start) => "date_created_start"
    case (CreatedAt, End) => "date_created_end"
    case (UpdatedAt, Start) => "date_updated_start"
    case (UpdatedAt, End) => "date_updated_end"
    case (DueDate, Start) => "due_date_start"
    case (DueDate, End) => "due_date_end"
  }

  /** `whereDate` compares the date part of a timestamp. */
  function DateOf(ts: Timestamp): Date {
    if |ts| >= 10 then ts[..10] else ts
  }

  /** Inclusive bounds; a null column never satisfies a bound (SQL comparison with NULL). */
  predicate InRange(value: Option<Date>, start: Option<Date>, end: Option<Date>) {
    && (start.Some? ==> value.Some? && LexLe(start.value, value.value))
    && (end.Some? ==> value.Some? && LexLe(value.value, end.value))
  }

  /** A task the list query keeps: top level and satisfying every supplied filter. */
  predicate Matches(t: Task, f: TaskFilters) {
    && t.parentId.None?
    && (f.projectId.Some? ==> t.projectId == f.projectId.value)
    && (f.assigneeId.Some? ==> t.assigneeId == f.assigneeId)
    && (f.assigneeIds.Some? ==> t.assigneeId.Some? && t.assigneeId.value in f.assigneeIds.value)
    && (f.statusIds.Some? ==> t.statusId.Some? && t.statusId.value in f.statusIds.value)
    && InRange(Some(DateOf(t.createdAt)), f.dateCreatedStart, f.dateCreatedEnd)
    && InRange(Some(DateOf(t.updatedAt)), f.dateUpdatedStart, f.dateUpdatedEnd)
    && InRange(t.dueDate, f.dueDateStart, f.dueDateEnd)
  }

  /** The rows of the table that match, each as often as it occurs, in table order. */
  function Select(tasks: seq<Task>, f: TaskFilters): (r: seq<Task>)
    ensures forall t :: multiset(r)[t] == if Matches(t, f) then multiset(tasks)[t] else 0
  {
    if tasks == [] then []
    else
      assert tasks == [tasks[0]] + tasks[1..];
      (if Matches(tasks[0], f) then [tasks[0]] else []) + Select(tasks[1..], f)
  }

  function Position(t: Task): int {
    t.position
  }

  function IntLe(a: int, b: int): bool {
    a <= b
  }

  lemma IntLeIsTotalOrder()
    ensures Sorting.TotalOrder(IntLe)
  {
  }

  /**
   * `getTasks`: exactly the matching rows, each as often as in the table,
   * ordered by ascending position.
   */
  function GetTasks(tasks: seq<Task>, f: TaskFilters): (r: seq<Task>)
    ensures forall t :: multiset(r)[t] == if Matches(t, f) then multiset(tasks)[t] else 0
    ensures Sorting.SortedBy(r, Position, IntLe)
  {
    IntLeIsTotalOrder();
    Sorting.SortBySorted(Select(tasks, f), Position, IntLe);
    Sorting.SortBy(Select(tasks, f), Position, IntLe)
  }

  /** A listed task is a top-level row of the table that satisfies every filter. */
  lemma GetTasksMembers(tasks: seq<Task>, f: TaskFilters, t: Task)
    ensures t in GetTasks(tasks, f) <==> t in tasks && Matches(t, f)
  {
    assert t in GetTasks(tasks, f) <==> multiset(GetTasks(tasks, f))[t] > 0;
    assert t in tasks <==> multiset(tasks)[t] > 0;
  }

  // ---------------------------------------------------------------------------
  // Reordering
  // ---------------------------------------------------------------------------

  /** One `{id, position}` pair of a reorder request. */
  datatype Placement = Placement(id: Id, position: int)

  /**
   * `Task::where('id', $id)->update(['position' => $p])`: every row with that key
   * gets the position, and the Eloquent builder also stamps `updated_at`.
   */
  function Place(tasks: seq<Task>, p: Placement, now: Timestamp): (r: seq<Task>)
    ensures |r| == |tasks|
    ensures forall i :: 0 <= i < |r| ==> r[i].id == tasks[i].id
  {
    seq(|tasks|, i requires 0 <= i < |tasks| =>
      if tasks[i].id == p.id then tasks[i].(position := p.position, updatedAt := now) else tasks[i])
  }

  /** The table after the pairs have been applied one after the other. */
  function Reordered(tasks: seq<Task>, ps: seq<Placement>, now: Timestamp): (r: seq<Task>)
    ensures |r| == |tasks|
    ensures forall i :: 0 <= i < |r| ==> r[i].id == tasks[i].id
    decreases |ps|
  {
    if ps == [] then tasks else Place(Reordered(tasks, ps[..|ps| - 1], now), ps[|ps| - 1], now)
  }

  /** The position the last pair naming `id` assigns, if any pair names it. */
  function LastPosition(ps: seq<Placement>, id: Id): Option<int>
    decreases |ps|
  {
    if ps == [] then None
    else if ps[|ps| - 1].id == id then Some(ps[|ps| - 1].position)
    else LastPosition(ps[..|ps| - 1], id)
  }

  /**
   * After a reorder, a listed task holds the position of the last pair naming
   * it (and a fresh `updated_at`); an unlisted task is untouched; no other
   * field changes.
   */
  lemma {:induction false} ReorderedRow(tasks: seq<Task>, ps: seq<Placement>, now: Timestamp, k: nat)
    requires k < |tasks|
    ensures Reordered(tasks, ps, now)[k] ==
      match LastPosition(ps, tasks[k].id)
      case Some(p) => tasks[k].(position := p, updatedAt := now)
      case None => tasks[k]
  {
    if ps != [] {
      ReorderedRow(tasks, ps[..|ps| - 1], now, k);
    }
  }

  /** A request that lists distinct tasks puts every listed task at its requested position. */
  lemma ReorderPlacesEach(tasks: seq<Task>, ps: seq<Placement>, now: Timestamp, j: nat, k: nat)
    requires j < |ps| && k < |tasks| && tasks[k].id == ps[j].id
    requires forall a, b :: 0 <= a < b < |ps| ==> ps[a].id != ps[b].id
    ensures Reordered(tasks, ps, now)[k].position == ps[j].position
  {
    LastPositionOfDistinct(ps, j);
    ReorderedRow(tasks, ps, now, k);
  }

  lemma {:induction false} LastPositionOfDistinct(ps: seq<Placement>, j: nat)
    requires j < |ps|
    requires forall a, b :: 0 <= a < b < |ps| ==> ps[a].id != ps[b].id
    ensures LastPosition(ps, ps[j].id) == Some(ps[j].position)
  {
    if j < |ps| - 1 {
      LastPositionOfDistinct(ps[..|ps| - 1], j);
    }
  }

  /** `reorderTasks`: one position overwrite per pair, in request order. */
  method ReorderTasks(db: Database, ps: seq<Placement>, now: Timestamp)
    requires db.Valid()
    modifies db`tasks
    ensures db.Valid()
    ensures db.tasks == Reordered(old(db.tasks), ps, now)
  {
    for i := 0 to |ps|
      invariant db.tasks == Reordered(old(db.tasks), ps[..i], now)
      invariant db.Valid()
    {
      assert ps[..i + 1][..i] == ps[..i];
      db.tasks := Place(db.tasks, ps[i], now);
    }
    assert ps[..|ps|] == ps;
  }

  // ---------------------------------------------------------------------------
  // Mass assignment
  // ---------------------------------------------------------------------------

  /** A request value: JSON null, an integer or a string. */
  datatype AttrValue = NullValue | IntValue(i: int) | StrValue(s: string)

  /** `Task::$fillable`: the only keys `create` and `fill` copy from a request. */
  const FILLABLE: seq<string> := [
    "project_id", "status_id", "milestone_id", "title", "description", "assignee_id",
    "priority", "estimated_hours", "start_date", "due_date", "position", "creator_id"
  ]

  /** The key is present and mass-assignable. */
  predicate Takes(data: map<string, AttrValue>, key: string) {
    key in data && key in FILLABLE
  }

  function ParsePriority(s: string): Option<Priority> {
    if s == "low" then Some(Low)
    else if s == "medium" then Some(Medium)
    else if s == "high" then Some(High)
    else None
  }

  /**
   * The integer a request value stands for: an integer, or a non-empty string
   * of decimal digits (the form the browser sends ids in, which the database
   * compares and stores as that number); anything else stands for none.
   */
  function IntOf(v: AttrValue): (r: Option<int>)
    ensures r.Some? && v.StrValue? ==> r.value >= 0
  {
    match v
    case NullValue => None
    case IntValue(i) => Some(i)
    case StrValue(s) => if s != "" && AllDigits(s) then Some(DigitsValue(s)) else None
  }

  /** The value names a row key: an integer or a digit string, at least 1. */
  predicate IsIdValue(v: AttrValue) {
    IntOf(v).Some? && IntOf(v).value >= 1
  }

  function IdOf(v: AttrValue): Id
    requires IsIdValue(v)
  {
    IntOf(v).value as Id
  }

  predicate IdOrNull(v: AttrValue) {
    v.NullValue? || IsIdValue(v)
  }

  predicate StrOrNull(v: AttrValue) {
    v.NullValue? || v.StrValue?
  }

  /**
   * The request values the service can receive. The validation rules check
   * the id fields only against the referenced table (`exists`), which an
   * integer and its decimal string both pass, and the framework turns an
   * empty string into null before validating; `title` and `priority` are
   * checked for type and value. `position` and the hour fields are not
   * validated; only integers, digit strings and null (for `position`) and
   * strings or null (for the hours) are modelled.
   */
  predicate WellTyped(data: map<string, AttrValue>) {
    && ("project_id" in data ==> IsIdValue(data["project_id"]))
    && ("status_id" in data ==> IdOrNull(data["status_id"]))
    && ("milestone_id" in data ==> IdOrNull(data["milestone_id"]))
    && ("assignee_id" in data ==> IdOrNull(data["assignee_id"]))
    && ("creator_id" in data ==> IdOrNull(data["creator_id"]))
    && ("parent_id" in data ==> IdOrNull(data["parent_id"]))
    && ("title" in data ==> data["title"].StrValue?)
    && ("description" in data ==> StrOrNull(data["description"]))
    && ("priority" in data ==>
          data["priority"].NullValue? ||
          (data["priority"].StrValue? && ParsePriority(data["priority"].s).Some?))
    && ("estimated_hours" in data ==> StrOrNull(data["estimated_hours"]))
    && ("actual_hours" in data ==> StrOrNull(data["actual_hours"]))
    && ("start_date" in data ==> StrOrNull(data["start_date"]))
    && ("due_date" in data ==> StrOrNull(data["due_date"]))
    && ("position" in data ==> data["position"].NullValue? || IntOf(data["position"]).Some?)
  }

  function IdValue(v: AttrValue, current: Option<Id>): Option<Id> {
    if v.NullValue? then None
    else if IsIdValue(v) then Some(IdOf(v))
    else current
  }

  function TextValue(v: AttrValue, current: Option<string>): Option<string> {
    match v
    case NullValue => None
    case IntValue(_) => current
    case StrValue(s) => Some(s)
  }

  function FillId(data: map<string, AttrValue>, key: string, current: Option<Id>): Option<Id> {
    if Takes(data, key) then IdValue(data[key], current) else current
  }

  function FillText(data: map<string, AttrValue>, key: string, current: Option<string>): Option<string> {
    if Takes(data, key) then TextValue(data[key], current) else current
  }

  /**
   * `$task->fill($data)`: every column whose key is in the request AND in
   * `FILLABLE` takes the request's value; every other column keeps its value.
   * `parent_id` and `actual_hours` are columns too, but not fillable.
   */
  function Fill(t: Task, data: map<string, AttrValue>): (r: Task)
    ensures r.id == t.id && r.createdAt == t.createdAt && r.updatedAt == t.updatedAt
    ensures data == map[] ==> r == t
  {
    t.(
      projectId :=
        if Takes(data, "project_id") && IsIdValue(data["project_id"])
        then IdOf(data["project_id"]) else t.projectId,
      parentId := FillId(data, "parent_id", t.parentId),
      statusId := FillId(data, "status_id", t.statusId),
      milestoneId := FillId(data, "milestone_id", t.milestoneId),
      title := if Takes(data, "title") && data["title"].StrValue? then data["title"].s else t.title,
      description := FillText(data, "description", t.description),
      assigneeId := FillId(data, "assignee_id", t.assigneeId),
      creatorId := FillId(data, "creator_id", t.creatorId),
      priority :=
        if Takes(data, "priority") && data["priority"].StrValue? && ParsePriority(data["priority"].s).Some?
        then ParsePriority(data["priority"].s).value else t.priority,
      estimatedHours := FillText(data, "estimated_hours", t.estimatedHours),
      actualHours := FillText(data, "actual_hours", t.actualHours),
      startDate := FillText(data, "start_date", t.startDate),
      dueDate := FillText(data, "due_date", t.dueDate),
      position :=
        if Takes(data, "position") && IntOf(data["position"]).Some? then IntOf(data["position"]).value else t.position)
  }

  /** Mass assignment can never move a task under another parent nor log actual hours. */
  lemma FillKeepsGuardedColumns(t: Task, data: map<string, AttrValue>)
    ensures Fill(t, data).parentId == t.parentId
    ensures Fill(t, data).actualHours == t.actualHours
  {
    assert "parent_id" !in FILLABLE by {
      forall k | k in FILLABLE ensures k != "parent_id" {
        assert |k| != 9 || k[1] != 'a';
      }
    }
    assert "actual_hours" !in FILLABLE by {
      forall k | k in FILLABLE ensures k != "actual_hours" {
        assert |k| != 12 || k[0] != 'a';
      }
    }
  }

  /**
   * An id sent as its decimal string, as the task form sends every id, names
   * the same row and is filled exactly as the integer would be.
   */
  lemma IdTextIsId(n: nat)
    requires n >= 1
    ensures IsIdValue(StrValue(NatText(n))) && IdOf(StrValue(NatText(n))) == n
    ensures forall c :: IdValue(StrValue(NatText(n)), c) == IdValue(IntValue(n), c) == Some(n)
  {
    DigitsValueOfNatText(n);
  }

  /** The create form's request, its project sent as a string, names that project. */
  lemma StringProjectCreate(p: nat, title: string)
    requires p >= 1
    ensures CreateRequest(map["project_id" := StrValue(NatText(p)), "title" := StrValue(title)])
    ensures RequestedProject(map["project_id" := StrValue(NatText(p)), "title" := StrValue(title)]) == p
  {
    IdTextIsId(p);
    var data := map["project_id" := StrValue(NatText(p)), "title" := StrValue(title)];
    assert data.Keys == {"project_id", "title"};
    assert WellTyped(data);
  }

  /**
   * A request carrying only `status_id` as a string stores that status; the
   * status column is dirty exactly when it differs from the current one, and
   * no other tracked column is, so the update records at most that one change.
   */
  lemma StringStatusUpdate(t: Task, n: nat)
    requires n >= 1
    ensures Fill(t, map["status_id" := StrValue(NatText(n))]) == t.(statusId := Some(n))
    ensures Dirty(StatusField, t, Fill(t, map["status_id" := StrValue(NatText(n))])) <==> t.statusId != Some(n)
    ensures forall f :: f != StatusField ==> !Dirty(f, t, Fill(t, map["status_id" := StrValue(NatText(n))]))
  {
    IdTextIsId(n);
    var data := map["status_id" := StrValue(NatText(n))];
    assert forall k :: k in data <==> k == "status_id";
  }

  /** The request sets the NOT NULL `priority` column to null: the database refuses the write. */
  predicate NullsPriority(data: map<string, AttrValue>) {
    Takes(data, "priority") && data["priority"].NullValue?
  }

  // ---------------------------------------------------------------------------
  // Audit rows
  // ---------------------------------------------------------------------------

  /** `logActivity`: appends one activity row (Eloquent writes no `created_at` for it). */
  method LogActivity(db: Database, taskId: Id, actor: Option<Id>, action: string, oldValue: Json, newValue: Json)
    requires db.Valid()
    modifies db`activities, db`serial
    ensures db.Valid()
    ensures db.activities == old(db.activities) + [Activity(old(db.serial), taskId, actor, action, oldValue, newValue, None)]
    ensures db.serial == old(db.serial) + 1
  {
    db.activities := db.activities + [Activity(db.serial, taskId, actor, action, oldValue, newValue, None)];
    db.serial := db.serial + 1;
  }

  // ---------------------------------------------------------------------------
  // Creation
  // ---------------------------------------------------------------------------

  /** `Task::where('project_id', $p)->max('position')`: over the whole project, subtasks included. */
  function MaxPosition(tasks: seq<Task>, projectId: Id): (r: Option<int>)
    ensures r.None? <==> forall t :: t in tasks ==> t.projectId != projectId
    ensures r.Some? ==> forall t :: t in tasks && t.projectId == projectId ==> t.position <= r.value
    ensures r.Some? ==> exists t :: t in tasks && t.projectId == projectId && t.position == r.value
  {
    if tasks == [] then None
    else
      var rest := MaxPosition(tasks[1..], projectId);
      assert forall t :: t in tasks[1..] ==> t in tasks;
      assert forall t :: t in tasks ==> t == tasks[0] || t in tasks[1..];
      if tasks[0].projectId != projectId then rest
      else match rest
        case None => Some(tasks[0].position)
        case Some(m) => Some(if tasks[0].position > m then tasks[0].position else m)
  }

  /** The position a new task gets when the request names none. */
  function NextPosition(tasks: seq<Task>, projectId: Id): int {
    match MaxPosition(tasks, projectId)
    case None => 0
    case Some(m) => m + 1
  }

  /** A new task without a requested position goes after every task of its project, or to 0 in an empty project. */
  lemma NextPositionAfterAll(tasks: seq<Task>, projectId: Id)
    ensures (forall t :: t in tasks ==> t.projectId != projectId) ==> NextPosition(tasks, projectId) == 0
    ensures forall t :: t in tasks && t.projectId == projectId ==> t.position < NextPosition(tasks, projectId)
    ensures (exists t :: t in tasks && t.projectId == projectId) ==>
      exists t :: t in tasks && t.projectId == projectId && NextPosition(tasks, projectId) == t.position + 1
  {
  }

  /** `isset($data[$key])`: present and not null. */
  predicate IsSet(data: map<string, AttrValue>, key: string) {
    key in data && !data[key].NullValue?
  }

  /** The request after `createTask` has filled in the position and the creator. */
  function Prepared(data: map<string, AttrValue>, tasks: seq<Task>, actor: Option<Id>, projectId: Id): map<string, AttrValue> {
    var withPosition := if IsSet(data, "position") then data else data["position" := IntValue(NextPosition(tasks, projectId))];
    if IsSet(withPosition, "creator_id") then withPosition
    else withPosition["creator_id" := match actor case Some(u) => IntValue(u) case None => NullValue]
  }

  /** A row with the column defaults: no parent, status, assignee..., priority `medium`. */
  function BlankTask(id: Id, projectId: Id, now: Timestamp): Task {
    Task(id, projectId, None, None, None, "", None, None, None, Medium, None, None, None, None, 0, now, now)
  }

  /** The row `Task::create($data)` inserts. */
  function NewTask(data: map<string, AttrValue>, tasks: seq<Task>, actor: Option<Id>, projectId: Id, id: Id, now: Timestamp): Task {
    Fill(BlankTask(id, projectId, now), Prepared(data, tasks, actor, projectId))
  }

  /** What the create endpoint's validation guarantees: a project and a title. */
  predicate CreateRequest(data: map<string, AttrValue>) {
    && WellTyped(data)
    && "project_id" in data
    && "title" in data
  }

  function RequestedProject(data: map<string, AttrValue>): Id
    requires CreateRequest(data)
  {
    IdOf(data["project_id"])
  }

  /**
   * The created row: the requested project and title; the requested position,
   * else one past the project's highest position (0 in an empty project); the
   * requested creator, else the acting user; never a parent.
   */
  lemma NewTaskFields(data: map<string, AttrValue>, tasks: seq<Task>, actor: Option<Id>, id: Id, now: Timestamp)
    requires CreateRequest(data)
    ensures var t := NewTask(data, tasks, actor, RequestedProject(data), id, now);
      && t.id == id
      && t.projectId == RequestedProject(data)
      && t.title == data["title"].s
      && t.parentId.None?
      && t.position == (if IsSet(data, "position") then IntOf(data["position"]).value else NextPosition(tasks, RequestedProject(data)))
      && t.creatorId == (if IsSet(data, "creator_id") then Some(IdOf(data["creator_id"])) else actor)
  {
    FillKeepsGuardedColumns(BlankTask(id, RequestedProject(data), now), Prepared(data, tasks, actor, RequestedProject(data)));
  }

  /** `Task::create` followed by the `created` audit row carrying the title. */
  method InsertTask(db: Database, task: Task, actor: Option<Id>)
    requires db.Valid() && task.id == db.serial
    modifies db`tasks, db`activities, db`serial
    ensures db.Valid()
    ensures db.tasks == old(db.tasks) + [task]
    ensures db.activities == old(db.activities) +
      [Activity(old(db.serial) + 1, task.id, actor, "created", JNull, JObject("title", task.title), None)]
  {
    db.tasks := db.tasks + [task];
    db.serial := db.serial + 1;
    LogActivity(db, task.id, actor, "created", JNull, JObject("title", task.title));
  }

  /** `createTask`: inserts the row and logs one `created` activity carrying the title. */
  method CreateTask(db: Database, data: map<string, AttrValue>, actor: Option<Id>, now: Timestamp) returns (r: Result<Task>)
    requires db.Valid() && CreateRequest(data)
    modifies db`tasks, db`activities, db`serial
    ensures db.Valid()
    ensures NullsPriority(data) ==>
      && r.Err?
      && db.tasks == old(db.tasks) && db.activities == old(db.activities) && db.serial == old(db.serial)
    ensures !NullsPriority(data) ==>
      var t := NewTask(data, old(db.tasks), actor, RequestedProject(data), old(db.serial), now);
      && r == Ok(t)
      && db.tasks == old(db.tasks) + [t]
      && db.activities == old(db.activities) +
           [Activity(old(db.serial) + 1, t.id, actor, "created", JNull, JObject("title", t.title), None)]
  {
    var projectId := RequestedProject(data);
    if NullsPriority(data) {
      return Err("SQLSTATE[23000]: Integrity constraint violation: tasks.priority cannot be null");
    }
    var task := NewTask(data, db.tasks, actor, projectId, db.serial, now);
    InsertTask(db, task, actor);
    r := Ok(task);
  }

  // ---------------------------------------------------------------------------
  // Update with audit trail
  // ---------------------------------------------------------------------------

  /** The tracked fields, in the order `updateTask` checks them. */
  datatype Tracked =
    | StatusField | PriorityField | AssigneeField | DueDateField
    | TitleField | ParentField | EstimatedHoursField | ActualHoursField

  const TRACKED: seq<Tracked> := [
    StatusField, PriorityField, AssigneeField, DueDateField,
    TitleField, ParentField, EstimatedHoursField, ActualHoursField
  ]

  /** The field's place in the check order. */
  function Rank(f: Tracked): nat {
    match f
    case StatusField => 0
    case PriorityField => 1
    case AssigneeField => 2
    case DueDateField => 3
    case TitleField => 4
    case ParentField => 5
    case EstimatedHoursField => 6
    case ActualHoursField => 7
  }

  /** The label an audit row names the field by; the action is the label + "_updated". */
  function Label(f: Tracked): string {
    match f
    case StatusField => "Status"
    case PriorityField => "Priority"
    case AssigneeField => "Assignee"
    case DueDateField => "Due Date"
    case TitleField => "Title"
    case ParentField => "Parent Task"
    case EstimatedHoursField => "Estimated Hours"
    case ActualHoursField => "Actual Hours"
  }

  /** `$task->isDirty($column)` for the field's column. */
  predicate Dirty(f: Tracked, before: Task, after: Task) {
    match f
    case StatusField => before.statusId != after.statusId
    case PriorityField => before.priority != after.priority
    case AssigneeField => before.assigneeId != after.assigneeId
    case DueDateField => before.dueDate != after.dueDate
    case TitleField => before.title != after.title
    case ParentField => before.parentId != after.parentId
    case EstimatedHoursField => before.estimatedHours != after.estimatedHours
    case ActualHoursField => before.actualHours != after.actualHours
  }

  /** A status's display value: its name, or 'None' for a null or dangling reference. */
  function StatusName(statuses: seq<TaskStatus>, id: Option<Id>): string {
    if id.None? then "None"
    else match FindStatus(statuses, id.value)
      case Some(s) => s.name
      case None => "None"
  }

  /** A user's display value: their name, or 'Unassigned' for a null or dangling reference. */
  function UserName(users: seq<User>, id: Option<Id>): string {
    if id.None? then "Unassigned"
    else match FindUser(users, id.value)
      case Some(u) => u.name
      case None => "Unassigned"
  }

  function TextOrNull(v: Option<string>): Json {
    match v
    case None => JNull
    case Some(s) => JText(s)
  }

  function IdOrNullJson(v: Option<Id>): Json {
    match v
    case None => JNull
    case Some(i) => JInt(i)
  }

  /** One entry of `$changes`: the field and its old and new display values. */
  datatype Change = Change(field: Tracked, oldValue: Json, newValue: Json)

  /** The display values recorded for a changed field, resolved against the current tables. */
  function Describe(f: Tracked, before: Task, after: Task, statuses: seq<TaskStatus>, users: seq<User>): Change {
    match f
    case StatusField => Change(f, JText(StatusName(statuses, before.statusId)), JText(StatusName(statuses, after.statusId)))
    case PriorityField => Change(f, JText(UcFirst(PriorityText(before.priority))), JText(UcFirst(PriorityText(after.priority))))
    case AssigneeField => Change(f, JText(UserName(users, before.assigneeId)), JText(UserName(users, after.assigneeId)))
    case DueDateField => Change(f, TextOrNull(before.dueDate), TextOrNull(after.dueDate))
    case TitleField => Change(f, JText(before.title), JText(after.title))
    case ParentField => Change(f, IdOrNullJson(before.parentId), IdOrNullJson(after.parentId))
    case EstimatedHoursField => Change(f, TextOrNull(before.estimatedHours), TextOrNull(after.estimatedHours))
    case ActualHoursField => Change(f, TextOrNull(before.actualHours), TextOrNull(after.actualHours))
  }

  /** The fields among `fs` whose column is dirty, in `fs` order. */
  function DirtyAmong(fs: seq<Tracked>, before: Task, after: Task): seq<Tracked> {
    if fs == [] then []
    else (if Dirty(fs[0], before, after) then [fs[0]] else []) + DirtyAmong(fs[1..], before, after)
  }

  function ChangesAmong(fs: seq<Tracked>, before: Task, after: Task, statuses: seq<TaskStatus>, users: seq<User>): seq<Change> {
    if fs == [] then []
    else
      (if Dirty(fs[0], before, after) then [Describe(fs[0], before, after, statuses, users)] else []) +
      ChangesAmong(fs[1..], before, after, statuses, users)
  }

  /** `$changes` as `updateTask` builds it. */
  function Changes(before: Task, after: Task, statuses: seq<TaskStatus>, users: seq<User>): seq<Change> {
    ChangesAmong(TRACKED, before, after, statuses, users)
  }

  lemma {:induction false} ChangesAmongFields(fs: seq<Tracked>, before: Task, after: Task, statuses: seq<TaskStatus>, users: seq<User>)
    ensures var cs := ChangesAmong(fs, before, after, statuses, users);
      && |cs| == |DirtyAmong(fs, before, after)|
      && forall i :: 0 <= i < |cs| ==>
           cs[i] == Describe(DirtyAmong(fs, before, after)[i], before, after, statuses, users)
  {
    if fs != [] {
      ChangesAmongFields(fs[1..], before, after, statuses, users);
    }
  }

  lemma {:induction false} DirtyAmongSpec(fs: seq<Tracked>, before: Task, after: Task)
    requires forall i, j :: 0 <= i < j < |fs| ==> Rank(fs[i]) < Rank(fs[j])
    ensures var ds := DirtyAmong(fs, before, after);
      && (forall f :: f in ds <==> f in fs && Dirty(f, before, after))
      && (forall i, j :: 0 <= i < j < |ds| ==> Rank(ds[i]) < Rank(ds[j]))
  {
    if fs != [] {
      DirtyAmongSpec(fs[1..], before, after);
      var rest := DirtyAmong(fs[1..], before, after);
      assert forall f :: f in rest ==> f in fs[1..];
      assert forall f :: f in fs[1..] ==> Rank(fs[0]) < Rank(f);
    }
  }

  /**
   * `updateTask` records exactly one change per dirty tracked field and none
   * for the others, strictly in the order Status, Priority, Assignee, Due Date,
   * Title, Parent Task, Estimated Hours, Actual Hours; each change carries the
   * field's display values.
   */
  lemma ChangesExactlyTheDirtyFields(before: Task, after: Task, statuses: seq<TaskStatus>, users: seq<User>)
    ensures var cs := Changes(before, after, statuses, users);
      && (forall f :: (exists i :: 0 <= i < |cs| && cs[i].field == f) <==> Dirty(f, before, after))
      && (forall i, j :: 0 <= i < j < |cs| ==> Rank(cs[i].field) < Rank(cs[j].field))
      && (forall i :: 0 <= i < |cs| ==> cs[i] == Describe(cs[i].field, before, after, statuses, users))
  {
    ChangesAmongFields(TRACKED, before, after, statuses, users);
    DirtyAmongSpec(TRACKED, before, after);
    var cs := Changes(before, after, statuses, users);
    var ds := DirtyAmong(TRACKED, before, after);
    assert forall i :: 0 <= i < |cs| ==> cs[i].field == ds[i];
    forall f ensures (exists i :: 0 <= i < |cs| && cs[i].field == f) <==> Dirty(f, before, after) {
      TrackedListsAll(f);
      if Dirty(f, before, after) {
        assert f in ds;
        var i :| 0 <= i < |ds| && ds[i] == f;
        assert cs[i].field == f;
      }
    }
  }

  /** Every field is checked: `TRACKED` lists each one at its rank. */
  lemma TrackedListsAll(f: Tracked)
    ensures Rank(f) < |TRACKED| && TRACKED[Rank(f)] == f
  {
  }

  /**
   * The recorded display values: status and assignee rows hold names with the
   * 'None' / 'Unassigned' fallback, priority rows the capitalised value.
   */
  lemma DisplayValues(before: Task, after: Task, statuses: seq<TaskStatus>, users: seq<User>)
    ensures after.statusId.None? ==> Describe(StatusField, before, after, statuses, users).newValue == JText("None")
    ensures after.statusId.Some? && FindStatus(statuses, after.statusId.value).Some? ==>
      Describe(StatusField, before, after, statuses, users).newValue == JText(FindStatus(statuses, after.statusId.value).value.name)
    ensures after.assigneeId.None? ==> Describe(AssigneeField, before, after, statuses, users).newValue == JText("Unassigned")
    ensures after.assigneeId.Some? && FindUser(users, after.assigneeId.value).None? ==>
      Describe(AssigneeField, before, after, statuses, users).newValue == JText("Unassigned")
    ensures Describe(PriorityField, before, after, statuses, users).newValue ==
      JText(match after.priority case Low => "Low" case Medium => "Medium" case High => "High")
  {
    assert UcFirst("low") == "Low" && UcFirst("medium") == "Medium" && UcFirst("high") == "High";
  }

  /** An update through `fill` never records a Parent Task or Actual Hours change. */
  lemma UpdateNeverLogsGuardedFields(t: Task, data: map<string, AttrValue>, statuses: seq<TaskStatus>, users: seq<User>)
    ensures forall c :: c in Changes(t, Fill(t, data), statuses, users) ==>
      c.field != ParentField && c.field != ActualHoursField
  {
    var after := Fill(t, data);
    FillKeepsGuardedColumns(t, data);
    var cs := Changes(t, after, statuses, users);
    ChangesExactlyTheDirtyFields(t, after, statuses, users);
    assert !Dirty(ParentField, t, after) && !Dirty(ActualHoursField, t, after);
    forall c | c in cs ensures c.field != ParentField && c.field != ActualHoursField {
      var i :| 0 <= i < |cs| && cs[i] == c;
      assert cs[i].field == c.field;
    }
  }

  /** The audit rows `updateTask` appends, keys handed out from `firstId` on. */
  function ChangeRows(changes: seq<Change>, taskId: Id, actor: Option<Id>, firstId: Id): (r: seq<Activity>)
    ensures |r| == |changes|
  {
    seq(|changes|, i requires 0 <= i < |changes| =>
      Activity(firstId + i, taskId, actor, Label(changes[i].field) + "_updated", changes[i].oldValue, changes[i].newValue, None))
  }

  /** The assignment mail: sent iff the assignee changed to a user who exists and has an email. */
  function AssignmentNotice(before: Task, after: Task, users: seq<User>, actor: Option<Id>): seq<Mail> {
    if Dirty(AssigneeField, before, after) && after.assigneeId.Some? then
      match FindUser(users, after.assigneeId.value)
      case Some(u) => if Truthy(u.email) then [TaskAssigned(u.email, after.id, actor)] else []
      case None => []
    else []
  }

  /**
   * At most one mail; exactly one iff the assignee changed, the new one is not
   * null, exists and has an email — and then it goes to that user's address.
   */
  lemma AssignmentNoticeSpec(before: Task, after: Task, users: seq<User>, actor: Option<Id>)
    ensures |AssignmentNotice(before, after, users, actor)| <= 1
    ensures |AssignmentNotice(before, after, users, actor)| == 1 <==>
      && before.assigneeId != after.assigneeId
      && after.assigneeId.Some?
      && FindUser(users, after.assigneeId.value).Some?
      && Truthy(FindUser(users, after.assigneeId.value).value.email)
    ensures |AssignmentNotice(before, after, users, actor)| == 1 ==>
      AssignmentNotice(before, after, users, actor)[0].to == FindUser(users, after.assigneeId.value).value.email
  {
  }

  /** The row `save()` writes: the filled task, with `updated_at` stamped when any column changed. */
  function Saved(t: Task, data: map<string, AttrValue>, now: Timestamp): Task {
    var filled := Fill(t, data);
    if filled != t then filled.(updatedAt := now) else filled
  }

  /** Every row with the task's key becomes the task. */
  function SetRow(tasks: seq<Task>, t: Task): (r: seq<Task>)
    ensures |r| == |tasks|
    ensures forall i :: 0 <= i < |r| ==> r[i].id == tasks[i].id
  {
    seq(|tasks|, i requires 0 <= i < |tasks| => if tasks[i].id == t.id then t else tasks[i])
  }

  /** The `foreach ($changes ...)` loop: one `logActivity` per change, in order. */
  method LogChanges(db: Database, changes: seq<Change>, taskId: Id, actor: Option<Id>)
    requires db.Valid()
    modifies db`activities, db`serial
    ensures db.Valid()
    ensures db.activities == old(db.activities) + ChangeRows(changes, taskId, actor, old(db.serial))
    ensures db.serial == old(db.serial) + |changes|
  {
    ghost var rows := ChangeRows(changes, taskId, actor, db.serial);
    var i := 0;
    while i < |changes|
      invariant 0 <= i <= |changes|
      invariant db.Valid()
      invariant db.serial == old(db.serial) + i
      invariant db.activities == old(db.activities) + rows[..i]
    {
      ghost var before := db.activities;
      assert rows[i] == Activity(db.serial, taskId, actor, Label(changes[i].field) + "_updated",
                                 changes[i].oldValue, changes[i].newValue, None);
      LogActivity(db, taskId, actor, Label(changes[i].field) + "_updated", changes[i].oldValue, changes[i].newValue);
      assert db.activities == before + [rows[i]];
      assert rows[..i + 1] == rows[..i] + [rows[i]];
      i := i + 1;
    }
    assert rows[..i] == rows;
  }

  /** `$task->save()`: the row with the task's key is overwritten. */
  method SaveTask(db: Database, t: Task)
    requires db.Valid()
    modifies db`tasks
    ensures db.Valid()
    ensures db.tasks == SetRow(old(db.tasks), t)
  {
    db.tasks := SetRow(db.tasks, t);
  }

  /** The `if ($assigneeChanged && $task->assignee_id)` block: mails the new assignee. */
  method NotifyAssignee(db: Database, before: Task, after: Task, actor: Option<Id>)
    modifies db`mails
    ensures db.mails == old(db.mails) + AssignmentNotice(before, after, db.users, actor)
  {
    if Dirty(AssigneeField, before, after) && after.assigneeId.Some? {
      var assignee := FindUser(db.users, after.assigneeId.value);
      if assignee.Some? && Truthy(assignee.value.email) {
        db.mails := db.mails + [TaskAssigned(assignee.value.email, after.id, actor)];
      }
    }
  }

  /** Saves the row, appends its audit rows and mails a new assignee. */
  method ApplyUpdate(db: Database, saved: Task, changes: seq<Change>, before: Task, after: Task, actor: Option<Id>)
    requires db.Valid()
    modifies db`tasks, db`activities, db`mails, db`serial
    ensures db.Valid()
    ensures db.tasks == SetRow(old(db.tasks), saved)
    ensures db.activities == old(db.activities) + ChangeRows(changes, before.id, actor, old(db.serial))
    ensures db.mails == old(db.mails) + AssignmentNotice(before, after, db.users, actor)
  {
    SaveTask(db, saved);
    LogChanges(db, changes, before.id, actor);
    NotifyAssignee(db, before, after, actor);
  }

  /**
   * `updateTask`: fill, diff the tracked fields against the original, save,
   * append one audit row per change, then mail a new assignee.
   */
  method UpdateTask(db: Database, taskId: Id, data: map<string, AttrValue>, actor: Option<Id>, now: Timestamp)
    returns (r: Result<Task>)
    requires db.Valid() && WellTyped(data) && FindTask(db.tasks, taskId).Some?
    modifies db`tasks, db`activities, db`mails, db`serial
    ensures db.Valid()
    ensures NullsPriority(data) ==>
      && r.Err?
      && db.tasks == old(db.tasks) && db.activities == old(db.activities)
      && db.mails == old(db.mails) && db.serial == old(db.serial)
    ensures !NullsPriority(data) ==> r == Ok(Saved(FindTask(old(db.tasks), taskId).value, data, now))
    ensures !NullsPriority(data) ==>
      db.tasks == SetRow(old(db.tasks), Saved(FindTask(old(db.tasks), taskId).value, data, now))
    ensures !NullsPriority(data) ==>
      var original := FindTask(old(db.tasks), taskId).value;
      db.activities == old(db.activities) +
        ChangeRows(Changes(original, Fill(original, data), db.statuses, db.users), taskId, actor, old(db.serial))
    ensures !NullsPriority(data) ==>
      var original := FindTask(old(db.tasks), taskId).value;
      db.mails == old(db.mails) + AssignmentNotice(original, Fill(original, data), db.users, actor)
  {
    if NullsPriority(data) {
      return Err("SQLSTATE[23000]: Integrity constraint violation: tasks.priority cannot be null");
    }
    var original := FindTask(db.tasks, taskId).value;
    var task := Fill(original, data);
    var saved := Saved(original, data, now);
    ApplyUpdate(db, saved, Changes(original, task, db.statuses, db.users), original, task, actor);
    r := Ok(saved);
  }
}
