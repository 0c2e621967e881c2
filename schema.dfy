/**
 * The database the services work on: one datatype per table row and one
 * `Database` object whose fields are the tables. A table is the sequence of its
 * rows in primary-key order, which is the order a query without `orderBy`
 * returns them in. Outgoing mail is an append-only log on the same object.
 */
module Schema {
  import opened Common

  datatype User = User(id: Id, name: string, email: string)

  datatype Organization = Organization(id: Id, name: string, ownerId: Id)

  /** A row of the `organization_user` pivot. */
  datatype OrgMembership = OrgMembership(organizationId: Id, userId: Id, role: string)

  datatype Project = Project(
    id: Id,
    organizationId: Id,
    name: string,
    description: Option<string>,
    startDate: Option<Date>,
    endDate: Option<Date>,
    status: Option<string>)

  /** A row of the `project_user` pivot. */
  datatype ProjectMembership = ProjectMembership(projectId: Id, userId: Id, role: string)

  datatype TaskStatus = TaskStatus(
    id: Id,
    projectId: Id,
    name: string,
    color: string,
    position: int,
    isDefault: bool,
    isCompleted: bool)

  /** The `priority` column: an enum, NOT NULL, default `medium`. */
  datatype Priority = Low | Medium | High

  function PriorityText(p: Priority): string {
    match p
    case Low => "low"
    case Medium => "medium"
    case High => "high"
  }

  /**
   * A task row. Hours are kept as the decimal text the database returns;
   * dates and timestamps as ISO-8601 text.
   */
  datatype Task = Task(
    id: Id,
    projectId: Id,
    parentId: Option<Id>,
    statusId: Option<Id>,
    milestoneId: Option<Id>,
    title: string,
    description: Option<string>,
    assigneeId: Option<Id>,
    creatorId: Option<Id>,
    priority: Priority,
    estimatedHours: Option<string>,
    actualHours: Option<string>,
    startDate: Option<Date>,
    dueDate: Option<Date>,
    position: int,
    createdAt: Timestamp,
    updatedAt: Timestamp)

  /**
   * The JSON stored in an activity's `old_value`/`new_value` (cast `array`):
   * null, a display string, an integer, or a one-entry object such as
   * `{"title": ...}` or `{"content": ...}`.
   */
  datatype Json = JNull | JText(text: string) | JInt(n: int) | JObject(key: string, value: string)

  /** A `task_activities` row; the model has timestamps disabled, so `created_at` may be null. */
  datatype Activity = Activity(
    id: Id,
    taskId: Id,
    userId: Option<Id>,
    action: string,
    oldValue: Json,
    newValue: Json,
    createdAt: Option<Timestamp>)

  datatype Comment = Comment(id: Id, taskId: Id, userId: Option<Id>, content: string, createdAt: Timestamp)

  /** The two `attachable_type` values an attachment can be owned by. */
  datatype OwnerKind = TaskOwner | ProjectOwner

  datatype Attachment = Attachment(
    id: Id,
    ownerKind: OwnerKind,
    ownerId: Id,
    userId: Option<Id>,
    fileName: string,
    filePath: string,
    fileSize: nat,
    mimeType: string,
    createdAt: Timestamp)

  datatype Invitation = Invitation(
    id: Id,
    email: string,
    token: string,
    organizationId: Id,
    projectId: Option<Id>,
    role: string)

  /** A message handed to the mailer, reduced to its recipient and what it refers to. */
  datatype Mail =
    | TaskAssigned(to: string, taskId: Id, assignedBy: Option<Id>)
    | CommentMentioned(to: string, taskId: Id, commentId: Id, author: Option<Id>)
    | OrganizationInvitation(to: string, invitationId: Id, token: string)

  /** Length of the token `Str::random(32)` mints and the `token` column holds. */
  const TOKEN_LENGTH: nat := 32

  /**
   * At most one invitation per (organization, email) pair — the unique index of
   * the invitations table — and no token shared by two rows.
   */
  ghost predicate InvitationsWellKeyed(invs: seq<Invitation>) {
    forall i, j :: 0 <= i < j < |invs| ==> Apart(invs[i], invs[j])
  }

  /** Two invitation rows the unique indexes let live side by side. */
  predicate Apart(a: Invitation, b: Invitation) {
    && (a.organizationId != b.organizationId || a.email != b.email)
    && a.token != b.token
  }

  ghost predicate OrganizationKeysBelow(rows: seq<Organization>, bound: int) {
    forall i :: 0 <= i < |rows| ==> rows[i].id < bound
  }

  ghost predicate ProjectKeysBelow(rows: seq<Project>, bound: int) {
    forall i :: 0 <= i < |rows| ==> rows[i].id < bound
  }

  ghost predicate StatusKeysBelow(rows: seq<TaskStatus>, bound: int) {
    forall i :: 0 <= i < |rows| ==> rows[i].id < bound
  }

  ghost predicate TaskKeysBelow(rows: seq<Task>, bound: int) {
    forall i :: 0 <= i < |rows| ==> rows[i].id < bound
  }

  ghost predicate ActivityKeysBelow(rows: seq<Activity>, bound: int) {
    forall i :: 0 <= i < |rows| ==> rows[i].id < bound
  }

  ghost predicate CommentKeysBelow(rows: seq<Comment>, bound: int) {
    forall i :: 0 <= i < |rows| ==> rows[i].id < bound
  }

  ghost predicate AttachmentKeysBelow(rows: seq<Attachment>, bound: int) {
    forall i :: 0 <= i < |rows| ==> rows[i].id < bound
  }

  ghost predicate InvitationKeysBelow(rows: seq<Invitation>, bound: int) {
    forall i :: 0 <= i < |rows| ==> rows[i].id < bound
  }

  class Database {
    var users: seq<User>
    var organizations: seq<Organization>
    var organizationUsers: seq<OrgMembership>
    var projects: seq<Project>
    var projectUsers: seq<ProjectMembership>
    var statuses: seq<TaskStatus>
    var tasks: seq<Task>
    var activities: seq<Activity>
    var comments: seq<Comment>
    var attachments: seq<Attachment>
    var invitations: seq<Invitation>
    var mails: seq<Mail>
    /** The next primary key handed out by an insert. */
    var serial: Id

    /** Every stored key was handed out before `serial`, and the invitation keys are unique. */
    ghost predicate Valid()
      reads this
    {
      && OrganizationKeysBelow(organizations, serial)
      && ProjectKeysBelow(projects, serial)
      && StatusKeysBelow(statuses, serial)
      && TaskKeysBelow(tasks, serial)
      && ActivityKeysBelow(activities, serial)
      && CommentKeysBelow(comments, serial)
      && AttachmentKeysBelow(attachments, serial)
      && InvitationKeysBelow(invitations, serial)
      && InvitationsWellKeyed(invitations)
    }

    /** A database holding only the given users. */
    constructor (registered: seq<User>)
      ensures Valid()
      ensures users == registered && organizations == [] && organizationUsers == []
      ensures projects == [] && projectUsers == [] && statuses == [] && tasks == []
      ensures activities == [] && comments == [] && attachments == [] && invitations == []
      ensures mails == []
    {
      users := registered;
      organizations, organizationUsers := [], [];
      projects, projectUsers, statuses := [], [], [];
      tasks, activities, comments, attachments := [], [], [], [];
      invitations, mails := [], [];
      serial := 1;
    }
  }

  /** `User::find($id)`: the user with that key, if any. */
  function FindUser(users: seq<User>, id: Id): (r: Option<User>)
    ensures r.Some? ==> r.value in users && r.value.id == id
    ensures r.None? ==> forall u :: u in users ==> u.id != id
  {
    if users == [] then None
    else if users[0].id == id then Some(users[0])
    else FindUser(users[1..], id)
  }

  /** `User::where('email', $email)->first()`. */
  function FindUserByEmail(users: seq<User>, email: string): (r: Option<User>)
    ensures r.Some? ==> r.value in users && r.value.email == email
    ensures r.None? ==> forall u :: u in users ==> u.email != email
  {
    if users == [] then None
    else if users[0].email == email then Some(users[0])
    else FindUserByEmail(users[1..], email)
  }

  /** `Organization::find($id)`. */
  function FindOrganization(orgs: seq<Organization>, id: Id): (r: Option<Organization>)
    ensures r.Some? ==> r.value in orgs && r.value.id == id
    ensures r.None? ==> forall o :: o in orgs ==> o.id != id
  {
    if orgs == [] then None
    else if orgs[0].id == id then Some(orgs[0])
    else FindOrganization(orgs[1..], id)
  }

  /** `Project::find($id)`. */
  function FindProject(projects: seq<Project>, id: Id): (r: Option<Project>)
    ensures r.Some? ==> r.value in projects && r.value.id == id
    ensures r.None? ==> forall p :: p in projects ==> p.id != id
  {
    if projects == [] then None
    else if projects[0].id == id then Some(projects[0])
    else FindProject(projects[1..], id)
  }

  /** `TaskStatus::find($id)`. */
  function FindStatus(statuses: seq<TaskStatus>, id: Id): (r: Option<TaskStatus>)
    ensures r.Some? ==> r.value in statuses && r.value.id == id
    ensures r.None? ==> forall s :: s in statuses ==> s.id != id
  {
    if statuses == [] then None
    else if statuses[0].id == id then Some(statuses[0])
    else FindStatus(statuses[1..], id)
  }

  /** `Task::find($id)`. */
  function FindTask(tasks: seq<Task>, id: Id): (r: Option<Task>)
    ensures r.Some? ==> r.value in tasks && r.value.id == id
    ensures r.None? ==> forall t :: t in tasks ==> t.id != id
  {
    if tasks == [] then None
    else if tasks[0].id == id then Some(tasks[0])
    else FindTask(tasks[1..], id)
  }

  /** `$organization->users()->where('user_id', $userId)->exists()`. */
  predicate IsOrgMember(pivot: seq<OrgMembership>, organizationId: Id, userId: Id) {
    exists m :: m in pivot && m.organizationId == organizationId && m.userId == userId
  }

  /** `$project->users()->where('user_id', $userId)->exists()`. */
  predicate IsProjectMember(pivot: seq<ProjectMembership>, projectId: Id, userId: Id) {
    exists m :: m in pivot && m.projectId == projectId && m.userId == userId
  }
}
