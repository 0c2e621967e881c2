/**
 * Organizations: the organizations a user sees, and the invitation state
 * machine. An invitation row is keyed by (organization, email); inviting again
 * rewrites that row with a new token, and accepting deletes it, so a token is
 * good for one acceptance at most.
 */
module OrganizationService {
  import opened Common
  import opened Schema

  // ---------------------------------------------------------------------------
  // getUserOrganizations
  // ---------------------------------------------------------------------------

  /** `Organization::where('owner_id', $user->id)->get()`. */
  function OwnedOrganizations(orgs: seq<Organization>, userId: Id): (r: seq<Organization>)
    ensures forall o :: o in r <==> o in orgs && o.ownerId == userId
  {
    if orgs == [] then []
    else (if orgs[0].ownerId == userId then [orgs[0]] else []) + OwnedOrganizations(orgs[1..], userId)
  }

  /** `$user->organizations`: the organizations the pivot lists the user in, in table order. */
  function MemberOrganizations(orgs: seq<Organization>, pivot: seq<OrgMembership>, userId: Id): (r: seq<Organization>)
    ensures forall o :: o in r <==> o in orgs && IsOrgMember(pivot, o.id, userId)
  {
    if orgs == [] then []
    else
      (if IsOrgMember(pivot, orgs[0].id, userId) then [orgs[0]] else [])
      + MemberOrganizations(orgs[1..], pivot, userId)
  }

  predicate HasId(orgs: seq<Organization>, id: Id) {
    exists i :: 0 <= i < |orgs| && orgs[i].id == id
  }

  /** `->unique('id')`: the first row with each key, in order. */
  function UniqueById(s: seq<Organization>): (r: seq<Organization>)
    ensures forall o :: o in r ==> o in s
    ensures forall o :: o in s ==> HasId(r, o.id)
    ensures forall i, j :: 0 <= i < j < |r| ==> r[i].id != r[j].id
  {
    if s == [] then []
    else
      var init := s[..|s| - 1];
      var r := UniqueById(init);
      assert forall o :: o in s <==> o in init || o == s[|s| - 1];
      if HasId(r, s[|s| - 1].id) then r
      else
        assert forall o :: o in init ==> HasId(r + [s[|s| - 1]], o.id) by {
          forall o | o in init ensures HasId(r + [s[|s| - 1]], o.id) {
            var i :| 0 <= i < |r| && r[i].id == o.id;
            assert (r + [s[|s| - 1]])[i] == r[i];
          }
        }
        assert (r + [s[|s| - 1]])[|r|] == s[|s| - 1];
        r + [s[|s| - 1]]
  }

  /** `getUserOrganizations`: owned organizations, then the ones joined, each key once. */
  function GetUserOrganizations(orgs: seq<Organization>, pivot: seq<OrgMembership>, userId: Id): (r: seq<Organization>)
    ensures forall i, j :: 0 <= i < j < |r| ==> r[i].id != r[j].id
  {
    UniqueById(OwnedOrganizations(orgs, userId) + MemberOrganizations(orgs, pivot, userId))
  }

  /**
   * With one row per primary key, the list holds exactly the organizations the
   * user owns or belongs to.
   */
  lemma GetUserOrganizationsSpec(orgs: seq<Organization>, pivot: seq<OrgMembership>, userId: Id, o: Organization)
    requires forall i, j :: 0 <= i < j < |orgs| ==> orgs[i].id != orgs[j].id
    ensures o in GetUserOrganizations(orgs, pivot, userId) <==>
      o in orgs && (o.ownerId == userId || IsOrgMember(pivot, o.id, userId))
  {
    var s := OwnedOrganizations(orgs, userId) + MemberOrganizations(orgs, pivot, userId);
    var r := GetUserOrganizations(orgs, pivot, userId);
    if o in orgs && (o.ownerId == userId || IsOrgMember(pivot, o.id, userId)) {
      assert o in s;
      var i :| 0 <= i < |r| && r[i].id == o.id;
      assert r[i] in s;
      SameKeySameRow(orgs, r[i], o);
    }
  }

  lemma SameKeySameRow(orgs: seq<Organization>, a: Organization, b: Organization)
    requires forall i, j :: 0 <= i < j < |orgs| ==> orgs[i].id != orgs[j].id
    requires a in orgs && b in orgs && a.id == b.id
    ensures a == b
  {
    var i :| 0 <= i < |orgs| && orgs[i] == a;
    var j :| 0 <= j < |orgs| && orgs[j] == b;
    assert i == j;
  }

  // ---------------------------------------------------------------------------
  // Invitation rows
  // ---------------------------------------------------------------------------

  /** No invitation holds this token (the `token` column is unique). */
  predicate TokenUnused(invs: seq<Invitation>, token: string) {
    forall i :: 0 <= i < |invs| ==> invs[i].token != token
  }

  /** The position of the row for (organization, email), if any. */
  function FindInvitation(invs: seq<Invitation>, orgId: Id, email: string): (r: Option<nat>)
    ensures r.Some? ==> r.value < |invs| && invs[r.value].organizationId == orgId && invs[r.value].email == email
    ensures r.None? ==> forall i :: 0 <= i < |invs| ==> invs[i].organizationId != orgId || invs[i].email != email
  {
    if invs == [] then None
    else if invs[0].organizationId == orgId && invs[0].email == email then Some(0)
    else
      match FindInvitation(invs[1..], orgId, email)
      case None => None
      case Some(k) => Some(k + 1)
  }

  /** `Invitation::where('token', $token)->first()`. */
  function FindByToken(invs: seq<Invitation>, token: string): (r: Option<Invitation>)
    ensures r.Some? ==> r.value in invs && r.value.token == token
    ensures r.None? ==> TokenUnused(invs, token)
  {
    if invs == [] then None
    else if invs[0].token == token then Some(invs[0])
    else FindByToken(invs[1..], token)
  }

  /**
   * The row `updateOrCreate` leaves for (organization, email): the existing row
   * with a new token, role `member` and the given project, or a new row under
   * the next key.
   */
  function UpsertedRow(invs: seq<Invitation>, orgId: Id, email: string, projectId: Option<Id>,
                       token: string, freshId: Id): Invitation
  {
    match FindInvitation(invs, orgId, email)
    case Some(k) => invs[k].(token := token, role := "member", projectId := projectId)
    case None => Invitation(freshId, email, token, orgId, projectId, "member")
  }

  /** The table after `updateOrCreate`: the row rewritten in place, or appended. */
  function Upserted(invs: seq<Invitation>, orgId: Id, email: string, projectId: Option<Id>,
                    token: string, freshId: Id): seq<Invitation>
  {
    var row := UpsertedRow(invs, orgId, email, projectId, token, freshId);
    match FindInvitation(invs, orgId, email)
    case Some(k) => invs[k := row]
    case None => invs + [row]
  }

  /**
   * The upsert keeps the unique indexes and the key bound: the rewritten row is
   * the only one for its pair, and its fresh token is nobody else's.
   */
  lemma UpsertKeepsKeys(invs: seq<Invitation>, orgId: Id, email: string, projectId: Option<Id>,
                        token: string, freshId: Id)
    requires InvitationsWellKeyed(invs) && InvitationKeysBelow(invs, freshId)
    requires TokenUnused(invs, token)
    ensures InvitationsWellKeyed(Upserted(invs, orgId, email, projectId, token, freshId))
    ensures InvitationKeysBelow(Upserted(invs, orgId, email, projectId, token, freshId), freshId + 1)
  {
    var u := Upserted(invs, orgId, email, projectId, token, freshId);
    var row := UpsertedRow(invs, orgId, email, projectId, token, freshId);
    match FindInvitation(invs, orgId, email)
    case Some(k) =>
      forall i, j | 0 <= i < j < |u| ensures Apart(u[i], u[j]) {
        if i != k && j != k {
          assert u[i] == invs[i] && u[j] == invs[j];
        }
      }
    case None =>
      forall i, j | 0 <= i < j < |u| ensures Apart(u[i], u[j]) {
        if j < |invs| {
          assert u[i] == invs[i] && u[j] == invs[j];
        }
      }
  }

  /**
   * After an invitation, the pair has exactly one row, and it carries the new
   * token, role `member` and the requested project.
   */
  lemma UpsertOneRowPerPair(invs: seq<Invitation>, orgId: Id, email: string, projectId: Option<Id>,
                            token: string, freshId: Id, i: nat)
    requires InvitationsWellKeyed(invs) && TokenUnused(invs, token) && InvitationKeysBelow(invs, freshId)
    requires i < |Upserted(invs, orgId, email, projectId, token, freshId)|
    ensures var u := Upserted(invs, orgId, email, projectId, token, freshId);
      u[i].organizationId == orgId && u[i].email == email <==> u[i] == UpsertedRow(invs, orgId, email, projectId, token, freshId)
    ensures var row := UpsertedRow(invs, orgId, email, projectId, token, freshId);
      row.organizationId == orgId && row.email == email && row.token == token
      && row.role == "member" && row.projectId == projectId
  {
    var u := Upserted(invs, orgId, email, projectId, token, freshId);
    var row := UpsertedRow(invs, orgId, email, projectId, token, freshId);
    UpsertKeepsKeys(invs, orgId, email, projectId, token, freshId);
    var k := match FindInvitation(invs, orgId, email) case Some(k) => k case None => |invs|;
    assert u[k] == row;
    if i < k {
      assert Apart(u[i], u[k]);
    } else if k < i {
      assert Apart(u[k], u[i]);
    }
  }

  /** Re-inviting retires the old token: it no longer finds any row. */
  lemma ReinviteRetiresOldToken(invs: seq<Invitation>, orgId: Id, email: string, projectId: Option<Id>,
                                token: string, freshId: Id, k: nat)
    requires InvitationsWellKeyed(invs) && TokenUnused(invs, token)
    requires FindInvitation(invs, orgId, email) == Some(k)
    ensures FindByToken(Upserted(invs, orgId, email, projectId, token, freshId), invs[k].token).None?
  {
    var u := Upserted(invs, orgId, email, projectId, token, freshId);
    forall i | 0 <= i < |u| ensures u[i].token != invs[k].token {
      if i < k {
        assert Apart(invs[i], invs[k]);
      } else if k < i {
        assert Apart(invs[k], invs[i]);
      }
    }
  }

  /** Every other row keeps its place and its contents. */
  lemma UpsertLeavesOtherPairs(invs: seq<Invitation>, orgId: Id, email: string, projectId: Option<Id>,
                               token: string, freshId: Id, i: nat)
    requires i < |invs| && (invs[i].organizationId != orgId || invs[i].email != email)
    ensures var u := Upserted(invs, orgId, email, projectId, token, freshId);
      i < |u| && u[i] == invs[i]
  {
  }

  /** `$invitation->delete()`: every row under the invitation's key goes. */
  function WithoutInvitation(invs: seq<Invitation>, id: Id): (r: seq<Invitation>)
    ensures forall x :: x in r <==> x in invs && x.id != id
  {
    if invs == [] then []
    else (if invs[0].id != id then [invs[0]] else []) + WithoutInvitation(invs[1..], id)
  }

  /** Deleting rows keeps the unique indexes. */
  lemma {:induction false} WithoutKeepsKeys(invs: seq<Invitation>, id: Id)
    requires InvitationsWellKeyed(invs)
    ensures InvitationsWellKeyed(WithoutInvitation(invs, id))
  {
    if invs != [] {
      var rest := WithoutInvitation(invs[1..], id);
      assert InvitationsWellKeyed(invs[1..]) by {
        forall i, j | 0 <= i < j < |invs[1..]| ensures Apart(invs[1..][i], invs[1..][j]) {
          assert invs[1..][i] == invs[i + 1] && invs[1..][j] == invs[j + 1];
        }
      }
      WithoutKeepsKeys(invs[1..], id);
      if invs[0].id != id {
        var r := [invs[0]] + rest;
        forall i, j | 0 <= i < j < |r| ensures Apart(r[i], r[j]) {
          if i == 0 {
            assert r[j] == rest[j - 1] && rest[j - 1] in invs[1..];
            var m :| 0 <= m < |invs[1..]| && invs[1..][m] == r[j];
            assert Apart(invs[0], invs[m + 1]);
          } else {
            assert r[i] == rest[i - 1] && r[j] == rest[j - 1];
          }
        }
      }
    }
  }

  /** Once accepted, the token finds nothing: an invitation is single-use. */
  lemma AcceptedTokenIsSpent(invs: seq<Invitation>, token: string)
    requires InvitationsWellKeyed(invs) && FindByToken(invs, token).Some?
    ensures FindByToken(WithoutInvitation(invs, FindByToken(invs, token).value.id), token).None?
  {
    var inv := FindByToken(invs, token).value;
    var r := WithoutInvitation(invs, inv.id);
    forall i | 0 <= i < |r| ensures r[i].token != token {
      assert r[i] in invs && r[i].id != inv.id;
      var a :| 0 <= a < |invs| && invs[a] == r[i];
      var b :| 0 <= b < |invs| && invs[b] == inv;
      if a < b {
        assert Apart(invs[a], invs[b]);
      } else if b < a {
        assert Apart(invs[b], invs[a]);
      }
    }
  }

  // ---------------------------------------------------------------------------
  // inviteUser
  // ---------------------------------------------------------------------------

  /** What `inviteUser` returns: the user added straight to a project, or the invitation sent. */
  datatype InviteOutcome = AddedToProject(user: User) | Invited(invitation: Invitation)

  /** The path `inviteUser` takes, decided on the tables before it writes. */
  datatype InviteCase =
    | AlreadyInProject
    | AlreadyInOrganization
    | ProjectOutsideOrganization
    | DirectAdd(user: User, projectId: Id)
    | SendInvitation

  /** `Project::where('id', ...)->where('organization_id', ...)->first()` finds a row. */
  predicate ProjectInOrganization(projects: seq<Project>, projectId: Id, orgId: Id) {
    exists p :: p in projects && p.id == projectId && p.organizationId == orgId
  }

  function InviteCaseOf(users: seq<User>, orgUsers: seq<OrgMembership>, projects: seq<Project>,
                        projectUsers: seq<ProjectMembership>, orgId: Id, email: string,
                        projectId: Option<Id>): InviteCase
  {
    var existing := FindUserByEmail(users, email);
    if existing.Some? && IsOrgMember(orgUsers, orgId, existing.value.id) then
      var project := if projectId.Some? then FindProject(projects, projectId.value) else None;
      if project.Some? && project.value.organizationId == orgId then
        if IsProjectMember(projectUsers, project.value.id, existing.value.id) then AlreadyInProject
        else DirectAdd(existing.value, project.value.id)
      else AlreadyInOrganization
    else if projectId.Some? && !ProjectInOrganization(projects, projectId.value, orgId) then
      ProjectOutsideOrganization
    else SendInvitation
  }

  function InviteCaseIn(db: Database, orgId: Id, email: string, projectId: Option<Id>): InviteCase
    reads db
  {
    InviteCaseOf(db.users, db.organizationUsers, db.projects, db.projectUsers, orgId, email, projectId)
  }

  /** The exception message of each refusal. */
  function RefusalMessage(c: InviteCase): string {
    match c
    case AlreadyInProject => "User is already a member of this project."
    case ProjectOutsideOrganization => "Project invalid or does not belong to organization."
    case _ => "User is already a member of this organization."
  }

  predicate Refused(c: InviteCase) {
    c.AlreadyInProject? || c.AlreadyInOrganization? || c.ProjectOutsideOrganization?
  }

  /**
   * An email that belongs to a member of the organization is never invited:
   * it is added to a project of the organization it is not yet in, or refused,
   * and refused outright when no project is named.
   */
  lemma MembersAreNeverInvited(users: seq<User>, orgUsers: seq<OrgMembership>, projects: seq<Project>,
                               projectUsers: seq<ProjectMembership>, orgId: Id, email: string,
                               projectId: Option<Id>, u: User)
    requires FindUserByEmail(users, email) == Some(u) && IsOrgMember(orgUsers, orgId, u.id)
    ensures var c := InviteCaseOf(users, orgUsers, projects, projectUsers, orgId, email, projectId);
      Refused(c) || c.DirectAdd?
    ensures var c := InviteCaseOf(users, orgUsers, projects, projectUsers, orgId, email, projectId);
      c.DirectAdd? ==>
        && c.user == u && c.projectId == projectId.value
        && ProjectInOrganization(projects, c.projectId, orgId)
        && !IsProjectMember(projectUsers, c.projectId, u.id)
    ensures projectId.None? ==>
      InviteCaseOf(users, orgUsers, projects, projectUsers, orgId, email, projectId) == AlreadyInOrganization
  {
  }

  /**
   * An invitation goes out only to an email of no member, and only for no
   * project or a project of this organization.
   */
  lemma InvitationsOnlyForOutsiders(users: seq<User>, orgUsers: seq<OrgMembership>, projects: seq<Project>,
                                    projectUsers: seq<ProjectMembership>, orgId: Id, email: string,
                                    projectId: Option<Id>)
    requires InviteCaseOf(users, orgUsers, projects, projectUsers, orgId, email, projectId) == SendInvitation
    ensures forall u :: FindUserByEmail(users, email) == Some(u) ==> !IsOrgMember(orgUsers, orgId, u.id)
    ensures projectId.Some? ==> ProjectInOrganization(projects, projectId.value, orgId)
  {
  }

  /** `$project->users()->attach($user->id, ['role' => 'member'])`. */
  method AttachToProject(db: Database, projectId: Id, userId: Id)
    modifies db`projectUsers
    ensures db.projectUsers == old(db.projectUsers) + [ProjectMembership(projectId, userId, "member")]
    ensures IsProjectMember(db.projectUsers, projectId, userId)
  {
    db.projectUsers := db.projectUsers + [ProjectMembership(projectId, userId, "member")];
    assert db.projectUsers[|db.projectUsers| - 1] == ProjectMembership(projectId, userId, "member");
  }

  /** The upsert and the mail that carries the token. */
  method SendInvite(db: Database, orgId: Id, email: string, projectId: Option<Id>, token: string)
    returns (inv: Invitation)
    requires db.Valid() && TokenUnused(db.invitations, token)
    modifies db`invitations, db`mails, db`serial
    ensures db.Valid()
    ensures inv == UpsertedRow(old(db.invitations), orgId, email, projectId, token, old(db.serial))
    ensures db.invitations == Upserted(old(db.invitations), orgId, email, projectId, token, old(db.serial))
    ensures db.mails == old(db.mails) + [OrganizationInvitation(email, inv.id, token)]
    ensures db.serial == old(db.serial) + (if FindInvitation(old(db.invitations), orgId, email).None? then 1 else 0)
  {
    UpsertKeepsKeys(db.invitations, orgId, email, projectId, token, db.serial);
    inv := UpsertedRow(db.invitations, orgId, email, projectId, token, db.serial);
    var found := FindInvitation(db.invitations, orgId, email);
    db.invitations := Upserted(db.invitations, orgId, email, projectId, token, db.serial);
    if found.None? {
      db.serial := db.serial + 1;
    }
    db.mails := db.mails + [OrganizationInvitation(email, inv.id, token)];
  }

  /**
   * `inviteUser`, with the token `Str::random(32)` would mint as a parameter.
   * A refusal changes nothing.
   */
  method InviteUser(db: Database, orgId: Id, email: string, projectId: Option<Id>, token: string)
    returns (r: Result<InviteOutcome>)
    requires db.Valid()
    requires |token| == TOKEN_LENGTH && TokenUnused(db.invitations, token)
    modifies db`projectUsers, db`invitations, db`mails, db`serial
    ensures db.Valid()
    ensures Refused(old(InviteCaseIn(db, orgId, email, projectId))) ==>
      && r == Err(RefusalMessage(old(InviteCaseIn(db, orgId, email, projectId))))
      && unchanged(db)
    ensures old(InviteCaseIn(db, orgId, email, projectId)).DirectAdd? ==>
      && r == Ok(AddedToProject(old(InviteCaseIn(db, orgId, email, projectId)).user))
      && db.projectUsers == old(db.projectUsers) + [ProjectMembership(
           old(InviteCaseIn(db, orgId, email, projectId)).projectId,
           old(InviteCaseIn(db, orgId, email, projectId)).user.id, "member")]
      && unchanged(db`invitations, db`mails, db`serial)
    ensures old(InviteCaseIn(db, orgId, email, projectId)).SendInvitation? ==>
      && r == Ok(Invited(UpsertedRow(old(db.invitations), orgId, email, projectId, token, old(db.serial))))
      && db.invitations == Upserted(old(db.invitations), orgId, email, projectId, token, old(db.serial))
      && db.mails == old(db.mails) + [OrganizationInvitation(email, r.value.invitation.id, token)]
      && db.projectUsers == old(db.projectUsers)
  {
    var c := InviteCaseIn(db, orgId, email, projectId);
    match c
    case DirectAdd(u, p) =>
      AttachToProject(db, p, u.id);
      r := Ok(AddedToProject(u));
    case SendInvitation =>
      var inv := SendInvite(db, orgId, email, projectId, token);
      r := Ok(Invited(inv));
    case _ =>
      r := Err(RefusalMessage(c));
  }

  // ---------------------------------------------------------------------------
  // acceptInvitation
  // ---------------------------------------------------------------------------

  const INVALID_TOKEN := "Invalid invitation token."

  function WrongRecipient(inv: Invitation, user: User): string {
    "This invitation is for " + inv.email + ", not " + user.email + "."
  }

  /** The organization pivot row acceptance adds: none when the user already belongs. */
  function OrganizationJoin(pivot: seq<OrgMembership>, inv: Invitation, user: User): seq<OrgMembership> {
    if IsOrgMember(pivot, inv.organizationId, user.id) then []
    else [OrgMembership(inv.organizationId, user.id, inv.role)]
  }

  /**
   * The project pivot row acceptance adds: one only when the invitation names a
   * project that still belongs to its organization and the user is not in it.
   */
  function ProjectJoin(projects: seq<Project>, pivot: seq<ProjectMembership>, inv: Invitation, user: User)
    : seq<ProjectMembership>
  {
    if inv.projectId.None? then []
    else
      var p := FindProject(projects, inv.projectId.value);
      if p.Some? && p.value.organizationId == inv.organizationId
         && !IsProjectMember(pivot, inv.projectId.value, user.id)
      then [ProjectMembership(inv.projectId.value, user.id, "member")]
      else []
  }

  /**
   * After acceptance the user belongs to the organization; a membership that
   * existed keeps its role, and otherwise the invitation's role is granted.
   */
  lemma AcceptJoinsOrganization(pivot: seq<OrgMembership>, inv: Invitation, user: User)
    ensures IsOrgMember(pivot + OrganizationJoin(pivot, inv, user), inv.organizationId, user.id)
    ensures IsOrgMember(pivot, inv.organizationId, user.id) ==> pivot + OrganizationJoin(pivot, inv, user) == pivot
    ensures !IsOrgMember(pivot, inv.organizationId, user.id) ==>
      exists m :: m in pivot + OrganizationJoin(pivot, inv, user) && m.organizationId == inv.organizationId
        && m.userId == user.id && m.role == inv.role
  {
    var after := pivot + OrganizationJoin(pivot, inv, user);
    if !IsOrgMember(pivot, inv.organizationId, user.id) {
      assert after[|pivot|] == OrgMembership(inv.organizationId, user.id, inv.role);
    }
  }

  /**
   * The user ends up in the invited project exactly when it still belongs to
   * the invitation's organization (or they were already in it), and is never
   * listed twice by acceptance.
   */
  lemma AcceptJoinsProject(projects: seq<Project>, pivot: seq<ProjectMembership>, inv: Invitation, user: User)
    requires inv.projectId.Some?
    requires FindProject(projects, inv.projectId.value).Some?
    requires FindProject(projects, inv.projectId.value).value.organizationId == inv.organizationId
    ensures IsProjectMember(pivot + ProjectJoin(projects, pivot, inv, user), inv.projectId.value, user.id)
    ensures IsProjectMember(pivot, inv.projectId.value, user.id) ==> ProjectJoin(projects, pivot, inv, user) == []
  {
    var after := pivot + ProjectJoin(projects, pivot, inv, user);
    if !IsProjectMember(pivot, inv.projectId.value, user.id) {
      assert after[|pivot|] == ProjectMembership(inv.projectId.value, user.id, "member");
    }
  }

  /** The writes of a successful acceptance. */
  method Join(db: Database, inv: Invitation, user: User)
    requires db.Valid()
    modifies db`organizationUsers, db`projectUsers, db`invitations
    ensures db.Valid()
    ensures db.organizationUsers == old(db.organizationUsers) + OrganizationJoin(old(db.organizationUsers), inv, user)
    ensures db.projectUsers == old(db.projectUsers) + ProjectJoin(db.projects, old(db.projectUsers), inv, user)
    ensures db.invitations == WithoutInvitation(old(db.invitations), inv.id)
  {
    if !IsOrgMember(db.organizationUsers, inv.organizationId, user.id) {
      db.organizationUsers := db.organizationUsers + [OrgMembership(inv.organizationId, user.id, inv.role)];
    }
    if inv.projectId.Some? {
      var p := FindProject(db.projects, inv.projectId.value);
      if p.Some? && p.value.organizationId == inv.organizationId
         && !IsProjectMember(db.projectUsers, inv.projectId.value, user.id)
      {
        db.projectUsers := db.projectUsers + [ProjectMembership(inv.projectId.value, user.id, "member")];
      }
    }
    WithoutKeepsKeys(db.invitations, inv.id);
    db.invitations := WithoutInvitation(db.invitations, inv.id);
  }

  /**
   * `acceptInvitation` for the signed-in `user`; it answers with the key of the
   * organization joined. Both refusals change nothing.
   */
  method AcceptInvitation(db: Database, token: string, user: User) returns (r: Result<Id>)
    requires db.Valid()
    modifies db`organizationUsers, db`projectUsers, db`invitations
    ensures db.Valid()
    ensures FindByToken(old(db.invitations), token).None? ==> r == Err(INVALID_TOKEN) && unchanged(db)
    ensures FindByToken(old(db.invitations), token).Some? && user.email != FindByToken(old(db.invitations), token).value.email ==>
      r == Err(WrongRecipient(FindByToken(old(db.invitations), token).value, user)) && unchanged(db)
    ensures FindByToken(old(db.invitations), token).Some? && user.email == FindByToken(old(db.invitations), token).value.email ==>
      var inv := FindByToken(old(db.invitations), token).value;
      && r == Ok(inv.organizationId)
      && db.organizationUsers == old(db.organizationUsers) + OrganizationJoin(old(db.organizationUsers), inv, user)
      && db.projectUsers == old(db.projectUsers) + ProjectJoin(db.projects, old(db.projectUsers), inv, user)
      && db.invitations == WithoutInvitation(old(db.invitations), inv.id)
  {
    var found := FindByToken(db.invitations, token);
    if found.None? {
      return Err(INVALID_TOKEN);
    }
    var inv := found.value;
    if user.email != inv.email {
      return Err(WrongRecipient(inv, user));
    }
    Join(db, inv, user);
    r := Ok(inv.organizationId);
  }
}
