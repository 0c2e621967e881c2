/**
 * The project dashboard's recent-activity panel: the ten newest audit rows of
 * the project's tasks, each with its task reference and a short phrase.
 */
module ProjectDashboard {
  import opened Common
  import opened Schema
  import ProjectActivity
  import TaskService

  const LIMIT: nat := 10

  /** The `task` member of an entry: `['id' => ..., 'title' => ...]`. */
  datatype TaskRef = TaskRef(id: Id, title: string)

  datatype Entry = Entry(
    id: Id,
    userId: Option<Id>,
    task: Option<TaskRef>,
    action: string,
    createdAt: Option<Timestamp>)

  /**
   * The first words of each `formatAction` phrase; every label the switch
   * does not list is `updated`.
   */
  function Verb(action: string): string {
    if action == "created" then "created task"
    else if action == "Status_updated" then "updated status of"
    else if action == "Assignee_updated" then "changed assignee for"
    else if action == "Priority_updated" then "updated priority of"
    else if action == "Due Date_updated" then "changed due date for"
    else if action == "Title_updated" then "renamed"
    else if action == "Estimated Hours_updated" then "updated estimated hours for"
    else if action == "Actual Hours_updated" then "logged hours for"
    else if action == "comment" then "commented on"
    else "updated"
  }

  /** The title a phrase quotes: the task's, or `a task` when the row has none. */
  function TitleOf(task: Option<TaskRef>): string {
    if task.Some? then task.value.title else "a task"
  }

  /** `formatAction`: `<verb> "<title>"`. */
  function FormatAction(action: string, task: Option<TaskRef>): (r: string)
    ensures |r| >= |TitleOf(task)| + 3
    ensures r[|r| - |TitleOf(task)| - 2..] == "\"" + TitleOf(task) + "\""
  {
    Verb(action) + " \"" + TitleOf(task) + "\""
  }

  /** `$activity->task`, reduced to its id and title. */
  function TaskRefOf(tasks: seq<Task>, taskId: Id): Option<TaskRef> {
    match FindTask(tasks, taskId)
    case None => None
    case Some(t) => Some(TaskRef(t.id, t.title))
  }

  function EntryOf(a: Activity, tasks: seq<Task>): Entry {
    var task := TaskRefOf(tasks, a.taskId);
    Entry(a.id, a.userId, task, FormatAction(a.action, task), a.createdAt)
  }

  /** `index`: the ten newest rows of the project's audit trail, as entries. */
  function Index(activities: seq<Activity>, tasks: seq<Task>, projectId: Id): (r: seq<Entry>)
    ensures |r| <= LIMIT
  {
    var listing := ProjectActivity.Listing(activities, tasks, projectId);
    var top := if |listing| <= LIMIT then listing else listing[..LIMIT];
    seq(|top|, i requires 0 <= i < |top| => EntryOf(top[i], tasks))
  }

  /**
   * The panel is the head of the newest-first listing: as many entries as
   * the project has rows, up to ten, in the listing's order, each with its
   * task present (the query only keeps rows whose task exists).
   */
  lemma IndexIsNewestHead(activities: seq<Activity>, tasks: seq<Task>, projectId: Id)
    ensures var listing := ProjectActivity.Listing(activities, tasks, projectId);
      |Index(activities, tasks, projectId)| == ProjectActivity.Min(LIMIT, |listing|)
    ensures var listing := ProjectActivity.Listing(activities, tasks, projectId);
      forall i :: 0 <= i < |Index(activities, tasks, projectId)| ==>
        && Index(activities, tasks, projectId)[i] == EntryOf(listing[i], tasks)
        && Index(activities, tasks, projectId)[i].task.Some?
    ensures forall i, j :: 0 <= i < j < |Index(activities, tasks, projectId)| ==>
      ProjectActivity.NewerOrSame(Index(activities, tasks, projectId)[i].createdAt,
                                  Index(activities, tasks, projectId)[j].createdAt)
  {
    var listing := ProjectActivity.Listing(activities, tasks, projectId);
    var r := Index(activities, tasks, projectId);
    forall i | 0 <= i < |r| ensures r[i] == EntryOf(listing[i], tasks) && r[i].task.Some? {
      ProjectActivity.ListingSpec(activities, tasks, projectId, listing[i]);
      assert listing[i] in listing;
    }
    if listing != [] {
      ProjectActivity.ListingSpec(activities, tasks, projectId, listing[0]);
    }
  }

  /**
   * The labels `updateTask` writes get their own phrase, except `Parent Task`,
   * which falls to the generic `updated`.
   */
  lemma TrackedLabelPhrases(f: TaskService.Tracked)
    ensures f != TaskService.ParentField <==> Verb(TaskService.Label(f) + "_updated") != "updated"
  {
    if f == TaskService.ParentField {
      ParentTaskPhraseIsGeneric();
    } else if TaskService.Rank(f) < 4 {
      LeadingFieldPhrases(f);
    } else {
      TrailingFieldPhrases(f);
    }
  }

  lemma LeadingFieldPhrases(f: TaskService.Tracked)
    requires TaskService.Rank(f) < 4
    ensures Verb(TaskService.Label(f) + "_updated") != "updated"
  {
    var l := TaskService.Label(f) + "_updated";
    match f
    case StatusField =>
      assert l == "Status_updated";
    case PriorityField =>
      assert l == "Priority_updated";
    case AssigneeField =>
      assert l == "Assignee_updated";
    case DueDateField =>
      assert l == "Due Date_updated";
  }

  lemma TrailingFieldPhrases(f: TaskService.Tracked)
    requires TaskService.Rank(f) >= 4 && f != TaskService.ParentField
    ensures Verb(TaskService.Label(f) + "_updated") != "updated"
  {
    var l := TaskService.Label(f) + "_updated";
    match f
    case TitleField =>
      assert l == "Title_updated";
    case EstimatedHoursField =>
      assert l == "Estimated Hours_updated";
    case ActualHoursField =>
      assert l == "Actual Hours_updated";
  }

  /** `Parent Task_updated` is not among the switch's cases. */
  lemma ParentTaskPhraseIsGeneric()
    ensures Verb(TaskService.Label(TaskService.ParentField) + "_updated") == "updated"
  {
    assert TaskService.Label(TaskService.ParentField) + "_updated" == "Parent Task_updated";
  }
}
