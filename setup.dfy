/**
 * First-time setup: a user who neither belongs to nor owns an organization
 * creates one, becomes its owner, and optionally gets a first project with
 * the default statuses.
 */
module Setup {
  import opened Common
  import opened Text
  import opened Schema
  import DefaultTaskStatusSeeder

  /** The JSON answer: the new organization and the new project, or null. */
  datatype SetupResult = SetupResult(organization: Organization, project: Option<Project>)

  const ALREADY_SET_UP := "User already has an organization"

  /** `$user->organizations()->exists() || Organization::where('owner_id', ...)->exists()`. */
  predicate HasOrganization(orgs: seq<Organization>, pivot: seq<OrgMembership>, userId: Id) {
    (exists m :: m in pivot && m.userId == userId) || (exists o :: o in orgs && o.ownerId == userId)
  }

  function HasOrganizationIn(db: Database, userId: Id): bool
    reads db
  {
    HasOrganization(db.organizations, db.organizationUsers, userId)
  }

  /** `if ($request->project_name)`: absent, empty and `"0"` are falsy. */
  predicate WantsProject(projectName: Option<string>) {
    projectName.Some? && Truthy(projectName.value)
  }

  /** The project setup creates inside the new organization. */
  function FirstProject(id: Id, orgId: Id, name: string): Project {
    Project(id, orgId, name, None, None, None, Some("active"))
  }

  /** Creating the organization and its owner row. */
  method InsertOrganization(db: Database, org: Organization)
    requires db.Valid() && org.id == db.serial
    modifies db`organizations, db`organizationUsers, db`serial
    ensures db.Valid()
    ensures db.organizations == old(db.organizations) + [org]
    ensures db.organizationUsers == old(db.organizationUsers) + [OrgMembership(org.id, org.ownerId, "owner")]
    ensures db.serial == old(db.serial) + 1
  {
    db.organizations := db.organizations + [org];
    db.organizationUsers := db.organizationUsers + [OrgMembership(org.id, org.ownerId, "owner")];
    db.serial := db.serial + 1;
  }

  /** Creating the first project and seeding its statuses. */
  method InsertFirstProject(db: Database, p: Project)
    requires db.Valid() && p.id == db.serial
    modifies db`projects, db`statuses, db`serial
    ensures db.Valid()
    ensures db.projects == old(db.projects) + [p]
    ensures db.statuses == old(db.statuses) + DefaultTaskStatusSeeder.SeededRows(p.id, old(db.serial) + 1)
  {
    db.projects := db.projects + [p];
    db.serial := db.serial + 1;
    DefaultTaskStatusSeeder.Run(db, Some(p.id));
  }

  /**
   * `createOrganization`. A user who already belongs to or owns an
   * organization is refused with nothing changed. Otherwise the organization
   * is owned by the user, the user is attached as `owner`, and a project in
   * `active` status with the default statuses exists exactly when a project
   * name was given. Afterwards the user has an organization, so setup refuses
   * a second time.
   */
  method CreateOrganization(db: Database, user: User, organizationName: string, projectName: Option<string>)
    returns (r: Result<SetupResult>)
    requires db.Valid()
    modifies db`organizations, db`organizationUsers, db`projects, db`statuses, db`serial
    ensures db.Valid()
    ensures old(HasOrganizationIn(db, user.id)) ==> r == Err(ALREADY_SET_UP) && unchanged(db)
    ensures !old(HasOrganizationIn(db, user.id)) ==>
      && r.Ok?
      && r.value.organization == Organization(old(db.serial), organizationName, user.id)
      && db.organizations == old(db.organizations) + [r.value.organization]
      && db.organizationUsers == old(db.organizationUsers) + [OrgMembership(old(db.serial), user.id, "owner")]
      && (r.value.project.Some? <==> WantsProject(projectName))
    ensures r.Ok? && r.value.project.Some? ==>
      && r.value.project.value == FirstProject(old(db.serial) + 1, r.value.organization.id, projectName.value)
      && db.projects == old(db.projects) + [r.value.project.value]
      && db.statuses == old(db.statuses) + DefaultTaskStatusSeeder.SeededRows(r.value.project.value.id, old(db.serial) + 2)
    ensures r.Ok? && r.value.project.None? ==> db.projects == old(db.projects) && db.statuses == old(db.statuses)
    ensures r.Ok? ==> HasOrganizationIn(db, user.id)
  {
    if HasOrganizationIn(db, user.id) {
      return Err(ALREADY_SET_UP);
    }
    var org := Organization(db.serial, organizationName, user.id);
    InsertOrganization(db, org);
    assert db.organizations[|db.organizations| - 1] == org;
    var project: Option<Project> := None;
    if WantsProject(projectName) {
      var p := FirstProject(db.serial, org.id, projectName.value);
      InsertFirstProject(db, p);
      project := Some(p);
    }
    r := Ok(SetupResult(org, project));
  }
}
