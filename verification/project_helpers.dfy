/**
  The project records of the API and the membership helpers the handlers share:
  `getProjectMembership`, `isAdmin` and `isOwnerOrAdmin`. The `project_members` table is a
  sequence of rows in table order; a lookup returns the first matching row.
*/
module ProjectHelpers {
  import opened Wrappers
  import opened Calendar

  /** The `project_role` enum. */
  datatype ProjectRole = Admin | Editor | Viewer

  /** One row of `project_members`; `role` is nullable (its default is "viewer"). */
  datatype Membership = Membership(projectId: string, userId: string, role: Option<ProjectRole>)

  /** One row of `projects`; the description, the owner and the team are nullable. */
  datatype Project = Project(
    uuid: string,
    name: string,
    slug: string,
    description: Option<string>,
    userId: Option<string>,
    teamId: Option<string>,
    createdAt: Option<Instant>)

  /**
    `getUserOrNull(c)`: the signed-in user of the request context, or null when the context
    or its user is missing.
  */
  function GetUserOrNull<U>(context: Option<Option<U>>): (r: Option<U>)
    ensures r.Some? <==> context.Some? && context.value.Some?
    ensures r.Some? ==> r.value == context.value.value
  {
    if context.None? then None else context.value
  }

  /** The first row of the table for this project and user, if any. */
  function FirstMembership(members: seq<Membership>, projectId: string, userId: string): (r: Option<Membership>)
    ensures r.Some? ==> r.value in members && r.value.projectId == projectId && r.value.userId == userId
  {
    if |members| == 0 then None
    else if members[0].projectId == projectId && members[0].userId == userId then Some(members[0])
    else FirstMembership(members[1..], projectId, userId)
  }

  /** `getProjectMembership(projectId, userId)`: no lookup at all for a missing or empty user id. */
  function GetProjectMembership(members: seq<Membership>, projectId: string, userId: Option<string>): Option<Membership> {
    if userId.None? || userId.value == "" then None
    else FirstMembership(members, projectId, userId.value)
  }

  /**
    A missing or empty user id has no membership; otherwise the membership is the row at the
    least index whose project and user both match, and there is none exactly when no row
    matches.
  */
  lemma {:induction false} MembershipIsFirstMatch(members: seq<Membership>, projectId: string, userId: Option<string>)
    ensures userId.None? || userId == Some("") ==> GetProjectMembership(members, projectId, userId).None?
    ensures userId.Some? && userId.value != "" ==>
      var r := GetProjectMembership(members, projectId, userId);
      && (r.None? <==> forall i :: 0 <= i < |members| ==> !(members[i].projectId == projectId && members[i].userId == userId.value))
      && (r.Some? ==> exists i :: (0 <= i < |members| && r.value == members[i]
            && members[i].projectId == projectId && members[i].userId == userId.value
            && forall j :: 0 <= j < i ==> !(members[j].projectId == projectId && members[j].userId == userId.value)))
  {
    if userId.Some? && userId.value != "" {
      FirstMatch(members, projectId, userId.value);
    }
  }

  lemma {:induction false} FirstMatch(members: seq<Membership>, projectId: string, userId: string)
    ensures var r := FirstMembership(members, projectId, userId);
      && (r.None? <==> forall i :: 0 <= i < |members| ==> !(members[i].projectId == projectId && members[i].userId == userId))
      && (r.Some? ==> exists i :: (0 <= i < |members| && r.value == members[i]
            && members[i].projectId == projectId && members[i].userId == userId
            && forall j :: 0 <= j < i ==> !(members[j].projectId == projectId && members[j].userId == userId)))
    decreases |members|
  {
    if |members| > 0 && !(members[0].projectId == projectId && members[0].userId == userId) {
      var tail := members[1..];
      FirstMatch(tail, projectId, userId);
      var r := FirstMembership(members, projectId, userId);
      if r.Some? {
        var i :| 0 <= i < |tail| && r.value == tail[i]
          && tail[i].projectId == projectId && tail[i].userId == userId
          && forall j :: 0 <= j < i ==> !(tail[j].projectId == projectId && tail[j].userId == userId);
        assert members[i + 1] == tail[i];
        forall j | 0 <= j < i + 1
          ensures !(members[j].projectId == projectId && members[j].userId == userId)
        {
          if j > 0 {
            assert members[j] == tail[j - 1];
          }
        }
      } else {
        forall i | 0 <= i < |members|
          ensures !(members[i].projectId == projectId && members[i].userId == userId)
        {
          if i > 0 {
            assert members[i] == tail[i - 1];
          }
        }
      }
    }
  }

  /** `isAdmin(projectId, userId)`: the membership exists and its role is "admin". */
  predicate IsAdmin(members: seq<Membership>, projectId: string, userId: string) {
    var m := GetProjectMembership(members, projectId, Some(userId));
    m.Some? && m.value.role == Some(Admin)
  }

  /** `isOwnerOrAdmin(project, userId)`: the owner, or an admin member of the project. */
  predicate IsOwnerOrAdmin(members: seq<Membership>, project: Project, userId: string) {
    project.userId == Some(userId) || IsAdmin(members, project.uuid, userId)
  }

  /**
    An admin is a user with a non-empty id whose first membership row of the project has the
    admin role; the owner passes `isOwnerOrAdmin` whatever the memberships say, anybody else
    passes it exactly when they are an admin, so every admin passes it.
  */
  lemma AdminRules(members: seq<Membership>, project: Project, userId: string)
    ensures IsAdmin(members, project.uuid, userId) ==>
      userId != "" && exists m :: m in members && m.projectId == project.uuid && m.userId == userId && m.role == Some(Admin)
    ensures project.userId == Some(userId) ==> IsOwnerOrAdmin(members, project, userId)
    ensures project.userId != Some(userId) ==> (IsOwnerOrAdmin(members, project, userId) <==> IsAdmin(members, project.uuid, userId))
    ensures IsAdmin(members, project.uuid, userId) ==> IsOwnerOrAdmin(members, project, userId)
  {
  }
}
