/**
 * Projects: the listing a user is shown, creation with the default statuses
 * and the creator as admin, and adding an organization member to a project.
 */
module ProjectService {
  import opened Common
  import opened Schema
  import DefaultTaskStatusSeeder

  // ---------------------------------------------------------------------------
  // getProjects
  // ---------------------------------------------------------------------------

  /** `Project::where('organization_id', $id)->get()`. */
  function ProjectsOf(projects: seq<Project>, orgId: Id): (r: seq<Project>)
    ensures forall p :: p in r <==> p in projects && p.organizationId == orgId
  {
    if projects == [] then []
    else (if projects[0].organizationId == orgId then [projects[0]] else []) + ProjectsOf(projects[1..], orgId)
  }

  /** `Project::whereIn('organization_id', $user->organizations()->pluck('organizations.id'))->get()`. */
  function ProjectsOfMember(projects: seq<Project>, pivot: seq<OrgMembership>, userId: Id): (r: seq<Project>)
    ensures forall p :: p in r <==> p in projects && IsOrgMember(pivot, p.organizationId, userId)
  {
    if projects == [] then []
    else
      (if IsOrgMember(pivot, projects[0].organizationId, userId) then [projects[0]] else [])
      + ProjectsOfMember(projects[1..], pivot, userId)
  }

  /**
   * `getProjects`: an `organization_id` filter wins; without it, a guest sees
   * nothing and a signed-in user sees the projects of the organizations the
   * pivot lists them in.
   */
  function GetProjects(projects: seq<Project>, pivot: seq<OrgMembership>, organizationFilter: Option<Id>,
                       user: Option<Id>): (r: seq<Project>)
    ensures organizationFilter.Some? ==>
      forall p :: p in r <==> p in projects && p.organizationId == organizationFilter.value
    ensures organizationFilter.None? && user.None? ==> r == []
    ensures organizationFilter.None? && user.Some? ==>
      forall p :: p in r <==> p in projects && IsOrgMember(pivot, p.organizationId, user.value)
  {
    if organizationFilter.Some? then ProjectsOf(projects, organizationFilter.value)
    else if user.None? then []
    else ProjectsOfMember(projects, pivot, user.value)
  }

  /** Owning an organization without a pivot row for it shows none of its projects. */
  lemma OwnershipAloneShowsNothing(projects: seq<Project>, pivot: seq<OrgMembership>, org: Organization, userId: Id)
    requires org.ownerId == userId && !IsOrgMember(pivot, org.id, userId)
    ensures forall p :: p in GetProjects(projects, pivot, None, Some(userId)) ==> p.organizationId != org.id
  {
  }

  // ---------------------------------------------------------------------------
  // createProject
  // ---------------------------------------------------------------------------

  /** The fillable columns of a project: what `Project::create($data)` keeps of the request. */
  datatype ProjectFields = ProjectFields(
    organizationId: Id,
    name: string,
    description: Option<string>,
    startDate: Option<Date>,
    endDate: Option<Date>,
    status: Option<string>)

  function ProjectRow(data: ProjectFields, id: Id): Project {
    Project(id, data.organizationId, data.name, data.description, data.startDate, data.endDate, data.status)
  }

  /** The pivot row naming the signed-in creator admin, if there is one. */
  function CreatorMembership(projectId: Id, actor: Option<Id>): seq<ProjectMembership> {
    if actor.Some? then [ProjectMembership(projectId, actor.value, "admin")] else []
  }

  /** `Project::create($data)`. */
  method InsertProject(db: Database, p: Project)
    requires db.Valid() && p.id == db.serial
    modifies db`projects, db`serial
    ensures db.Valid()
    ensures db.projects == old(db.projects) + [p]
    ensures db.serial == old(db.serial) + 1
  {
    db.projects := db.projects + [p];
    db.serial := db.serial + 1;
  }

  /** `createProject`: the row, its four default statuses, and the creator as admin. */
  method CreateProject(db: Database, data: ProjectFields, actor: Option<Id>) returns (p: Project)
    requires db.Valid()
    modifies db`projects, db`statuses, db`projectUsers, db`serial
    ensures db.Valid()
    ensures p == ProjectRow(data, old(db.serial))
    ensures db.projects == old(db.projects) + [p]
    ensures db.statuses == old(db.statuses) + DefaultTaskStatusSeeder.SeededRows(p.id, old(db.serial) + 1)
    ensures db.projectUsers == old(db.projectUsers) + CreatorMembership(p.id, actor)
    ensures actor.Some? ==> IsProjectMember(db.projectUsers, p.id, actor.value)
  {
    p := ProjectRow(data, db.serial);
    InsertProject(db, p);
    DefaultTaskStatusSeeder.Run(db, Some(p.id));
    if actor.Some? {
      db.projectUsers := db.projectUsers + [ProjectMembership(p.id, actor.value, "admin")];
      assert db.projectUsers[|db.projectUsers| - 1].projectId == p.id;
    }
  }

  // ---------------------------------------------------------------------------
  // addUserToProject
  // ---------------------------------------------------------------------------

  function UnknownEmail(email: string): string {
    "User with email " + email + " not found."
  }

  const ALREADY_IN_PROJECT := "User is already a member of this project."

  function NotInOrganization(org: Organization): string {
    "User must be a member of the organization (" + org.name + ") before being added to the project."
  }

  /**
   * The first check of `addUserToProject` that fails, in the order the code
   * makes them, or the user to add.
   */
  function AddUserCheck(users: seq<User>, orgUsers: seq<OrgMembership>, projectUsers: seq<ProjectMembership>,
                        project: Project, org: Organization, email: string): (r: Result<User>)
    ensures r.Ok? ==>
      && r.value in users && r.value.email == email
      && !IsProjectMember(projectUsers, project.id, r.value.id)
      && IsOrgMember(orgUsers, project.organizationId, r.value.id)
    ensures (forall u :: u in users ==> u.email != email) ==> r == Err(UnknownEmail(email))
  {
    var found := FindUserByEmail(users, email);
    if found.None? then Err(UnknownEmail(email))
    else if IsProjectMember(projectUsers, project.id, found.value.id) then Err(ALREADY_IN_PROJECT)
    else if !IsOrgMember(orgUsers, project.organizationId, found.value.id) then Err(NotInOrganization(org))
    else Ok(found.value)
  }

  /**
   * A user already in the project is refused whether or not they belong to
   * the organization, and a known non-member of the organization is refused
   * with the organization's name.
   */
  lemma AddUserRefusals(users: seq<User>, orgUsers: seq<OrgMembership>, projectUsers: seq<ProjectMembership>,
                        project: Project, org: Organization, email: string, u: User)
    requires FindUserByEmail(users, email) == Some(u)
    ensures IsProjectMember(projectUsers, project.id, u.id) ==>
      AddUserCheck(users, orgUsers, projectUsers, project, org, email) == Err(ALREADY_IN_PROJECT)
    ensures !IsProjectMember(projectUsers, project.id, u.id) && !IsOrgMember(orgUsers, project.organizationId, u.id) ==>
      AddUserCheck(users, orgUsers, projectUsers, project, org, email) == Err(NotInOrganization(org))
  {
  }

  /**
   * `addUserToProject` for a stored project, whose organization exists by the
   * foreign key. A refusal changes nothing; success adds one `member` row, so
   * the user is then in both the project and its organization.
   */
  method AddUserToProject(db: Database, project: Project, email: string) returns (r: Result<User>)
    requires FindOrganization(db.organizations, project.organizationId).Some?
    modifies db`projectUsers
    ensures r == old(AddUserCheck(db.users, db.organizationUsers, db.projectUsers, project,
                                  FindOrganization(db.organizations, project.organizationId).value, email))
    ensures r.Err? ==> db.projectUsers == old(db.projectUsers)
    ensures r.Ok? ==> db.projectUsers == old(db.projectUsers) + [ProjectMembership(project.id, r.value.id, "member")]
    ensures r.Ok? ==> IsProjectMember(db.projectUsers, project.id, r.value.id)
    ensures r.Ok? ==> IsOrgMember(db.organizationUsers, project.organizationId, r.value.id)
  {
    var org := FindOrganization(db.organizations, project.organizationId).value;
    r := AddUserCheck(db.users, db.organizationUsers, db.projectUsers, project, org, email);
    if r.Ok? {
      db.projectUsers := db.projectUsers + [ProjectMembership(project.id, r.value.id, "member")];
      assert db.projectUsers[|db.projectUsers| - 1] == ProjectMembership(project.id, r.value.id, "member");
    }
  }
}
