/**
  The per-project routes: rotating the API keys, deleting, reading the overview, inviting,
  changing a member's role, renaming, listing the members and leaving. The routes use the
  membership helper of the API's library, which looks the row up for any user id (the caller
  here is a signed-in user); a project the lookup does not find raises an error in the
  library's helper, which the application's error handler answers with 500. The tables are
  sequences of rows in table order, and each route's writes are its result.
*/
module ProjectAccess {
  import opened Wrappers
  import opened ProjectHelpers
  import opened ProjectCreation
  import opened ProjectList
  import opened Hex
  import opened ApiKeys

  /** Keep the elements that satisfy `keep`, in order. */
  function Filter<T>(xs: seq<T>, keep: T -> bool): (r: seq<T>)
    ensures |r| <= |xs|
  {
    if xs == [] then [] else (if keep(xs[0]) then [xs[0]] else []) + Filter(xs[1..], keep)
  }

  lemma {:induction false} FilterSpec<T>(xs: seq<T>, keep: T -> bool)
    ensures forall x :: x in Filter(xs, keep) <==> x in xs && keep(x)
    decreases |xs|
  {
    if xs != [] {
      FilterSpec(xs[1..], keep);
      assert xs == [xs[0]] + xs[1..];
    }
  }

  /** JavaScript truthiness of a nullable text. */
  predicate Truthy(s: Option<string>) {
    s.Some? && s.value != ""
  }

  /** The library's `getProjectMembership`: the first row for the project and user, for any user id. */
  function LibMembership(members: seq<Membership>, projectId: string, userId: string): Option<Membership> {
    FirstMembership(members, projectId, userId)
  }

  /** `membership?.role === "admin"` for the library's lookup. */
  predicate LibIsAdmin(members: seq<Membership>, projectId: string, userId: string) {
    var m := LibMembership(members, projectId, userId);
    m.Some? && m.value.role == Some(Admin)
  }

  /** The library's `isOwnerOrAdmin`. */
  predicate LibIsOwnerOrAdmin(members: seq<Membership>, project: Project, userId: string) {
    project.userId == Some(userId) || LibIsAdmin(members, project.uuid, userId)
  }

  /**
    The library's helpers agree with the helpers module for every non-empty user id; they
    differ only on the empty id, which the helpers module never looks up.
  */
  lemma LibHelpersAgree(members: seq<Membership>, project: Project, userId: string)
    ensures userId != "" ==> (LibIsAdmin(members, project.uuid, userId) <==> IsAdmin(members, project.uuid, userId))
    ensures userId != "" ==> (LibIsOwnerOrAdmin(members, project, userId) <==> IsOwnerOrAdmin(members, project, userId))
    ensures userId == "" ==> !IsAdmin(members, project.uuid, userId)
  {
  }

  /** `getProjectOrThrow`: a missing project ends in the application's error handler. */
  function FoundProject(project: Option<Project>): Result<Project, Reply> {
    if project.None? then Err(Reply(500, "Internal Server Error")) else Ok(project.value)
  }

  /** One row of `project_api_keys`. */
  datatype KeyRow = KeyRow(projectId: string, publicKey: string, secretKey: string, revoked: bool)

  /** POST /:id/rotate-key: only the owner or an admin; the project's rows are replaced by one new pair. */
  function RotateKey(
    projectId: string, project: Option<Project>, members: seq<Membership>, userId: string, keyRows: seq<KeyRow>,
    publicBytes: seq<Byte>, secretBytes: seq<Byte>): Result<seq<KeyRow>, Reply>
    requires |publicBytes| == 16 && |secretBytes| == 32
  {
    var keys := GenerateApiKeys(publicBytes, secretBytes);
    if project.None? then Err(FoundProject(project).error)
    else if !LibIsOwnerOrAdmin(members, project.value, userId) then Err(Reply(403, "Forbidden"))
    else Ok(Filter(keyRows, (k: KeyRow) => k.projectId != projectId) + [KeyRow(projectId, keys.publicKey, keys.secretKey, false)])
  }

  /**
    Rotation succeeds exactly for the owner or an admin member; afterwards the project holds
    exactly one key row, the new unrevoked pair, and every other project's rows are kept.
  */
  lemma RotateKeySpec(
    projectId: string, project: Option<Project>, members: seq<Membership>, userId: string, keyRows: seq<KeyRow>,
    publicBytes: seq<Byte>, secretBytes: seq<Byte>)
    requires |publicBytes| == 16 && |secretBytes| == 32
    ensures var keys := GenerateApiKeys(publicBytes, secretBytes);
      var r := RotateKey(projectId, project, members, userId, keyRows, publicBytes, secretBytes);
      && (project.None? ==> r == Err(Reply(500, "Internal Server Error")))
      && (project.Some? ==> (r.Ok? <==> LibIsOwnerOrAdmin(members, project.value, userId)))
      && (r.Ok? ==>
            && Filter(r.value, (k: KeyRow) => k.projectId == projectId) == [KeyRow(projectId, keys.publicKey, keys.secretKey, false)]
            && forall k: KeyRow :: k.projectId != projectId ==> (k in r.value <==> k in keyRows))
  {
    var keys := GenerateApiKeys(publicBytes, secretBytes);
    var r := RotateKey(projectId, project, members, userId, keyRows, publicBytes, secretBytes);
    if r.Ok? {
      var kept := Filter(keyRows, (k: KeyRow) => k.projectId != projectId);
      var mine := (k: KeyRow) => k.projectId == projectId;
      FilterSpec(keyRows, (k: KeyRow) => k.projectId != projectId);
      NoneKept(kept, mine);
      FilterConcat(kept, [KeyRow(projectId, keys.publicKey, keys.secretKey, false)], mine);
      assert Filter([KeyRow(projectId, keys.publicKey, keys.secretKey, false)], mine) == [KeyRow(projectId, keys.publicKey, keys.secretKey, false)];
    }
  }

  lemma {:induction false} FilterConcat<T>(a: seq<T>, b: seq<T>, keep: T -> bool)
    ensures Filter(a + b, keep) == Filter(a, keep) + Filter(b, keep)
    decreases |a|
  {
    if a == [] {
      assert a + b == b;
    } else {
      var head := if keep(a[0]) then [a[0]] else [];
      assert (a + b)[0] == a[0];
      assert (a + b)[1..] == a[1..] + b;
      assert Filter(a + b, keep) == head + Filter(a[1..] + b, keep);
      FilterConcat(a[1..], b, keep);
      assert head + (Filter(a[1..], keep) + Filter(b, keep)) == (head + Filter(a[1..], keep)) + Filter(b, keep);
    }
  }

  lemma {:induction false} NoneKept<T>(xs: seq<T>, keep: T -> bool)
    requires forall x :: x in xs ==> !keep(x)
    ensures Filter(xs, keep) == []
    decreases |xs|
  {
    if xs != [] {
      assert xs[0] in xs;
      assert forall x :: x in xs[1..] ==> x in xs;
      NoneKept(xs[1..], keep);
    }
  }

  /**
    DELETE /:id: a project owned by someone else is forbidden; a team project needs an admin
    membership, even for its owner; the project's rows are removed.
  */
  function DeleteProject(projectId: string, project: Option<Project>, members: seq<Membership>, userId: string, projects: seq<Project>): Result<seq<Project>, Reply> {
    if project.None? then Err(FoundProject(project).error)
    else if Truthy(project.value.userId) && project.value.userId.value != userId then Err(Reply(403, "Forbidden"))
    else if Truthy(project.value.teamId) && !LibIsAdmin(members, project.value.uuid, userId) then Err(Reply(403, "Only admins can delete this project"))
    else Ok(Filter(projects, (p: Project) => p.uuid != projectId))
  }

  /**
    Deleting succeeds exactly when the project is not owned by another user and, if it
    belongs to a team, the caller is an admin member of it; afterwards no row has the id and
    every other project is kept.
  */
  lemma DeleteProjectSpec(projectId: string, project: Option<Project>, members: seq<Membership>, userId: string, projects: seq<Project>)
    ensures var r := DeleteProject(projectId, project, members, userId, projects);
      && (project.Some? ==>
            (r.Ok? <==> !(Truthy(project.value.userId) && project.value.userId.value != userId)
                        && (Truthy(project.value.teamId) ==> LibIsAdmin(members, project.value.uuid, userId))))
      && (r.Ok? ==> forall p :: p in r.value <==> p in projects && p.uuid != projectId)
  {
    FilterSpec(projects, (p: Project) => p.uuid != projectId);
  }

  /** The role the overview reports. */
  datatype OverviewRole = AdminView | EditorView | ViewerView

  function ViewOf(role: ProjectRole): OverviewRole {
    match role
    case Admin => AdminView
    case Editor => EditorView
    case Viewer => ViewerView
  }

  /** GET /:id: the project, the caller's role, and whether the API keys are included. */
  datatype Overview = Overview(project: Project, role: OverviewRole, showsKeys: bool)

  function ReadOverview(project: Option<Project>, members: seq<Membership>, userId: string): Result<Overview, Reply> {
    if project.None? then Err(FoundProject(project).error)
    else
      var p := project.value;
      var role :=
        if p.userId == Some(userId) then Ok(AdminView)
        else if Truthy(p.teamId) then
          var m := LibMembership(members, p.uuid, userId);
          if m.None? || m.value.role.None? then Err(Reply(403, "Not a member of this project")) else Ok(ViewOf(m.value.role.value))
        else Ok(ViewerView);
      if role.Err? then Err(role.error)
      else Ok(Overview(p, role.value, role.value == AdminView || role.value == EditorView))
  }

  /**
    The overview: the owner reads it as "admin"; on a team project anybody else needs a
    membership with a role, and reads it with that role, else 403; on a project of no team
    every other user reads it as "viewer". The keys are included exactly for "admin" and
    "editor".
  */
  lemma OverviewSpec(project: Option<Project>, members: seq<Membership>, userId: string)
    ensures var r := ReadOverview(project, members, userId);
      && (project.Some? && project.value.userId == Some(userId) ==> r == Ok(Overview(project.value, AdminView, true)))
      && (project.Some? && project.value.userId != Some(userId) && Truthy(project.value.teamId) ==>
            var m := LibMembership(members, project.value.uuid, userId);
            && (r.Err? <==> m.None? || m.value.role.None?)
            && (r.Err? ==> r.error == Reply(403, "Not a member of this project"))
            && (r.Ok? ==> r.value.role == ViewOf(m.value.role.value)))
      && (project.Some? && project.value.userId != Some(userId) && !Truthy(project.value.teamId) ==>
            r == Ok(Overview(project.value, ViewerView, false)))
      && (r.Ok? ==> (r.value.showsKeys <==> r.value.role != ViewerView))
  {
  }

  /** `["admin", "editor", "viewer"].includes(role)`. */
  function ParseRole(role: string): (r: Option<ProjectRole>)
    ensures r.Some? <==> role in {"admin", "editor", "viewer"}
  {
    if role == "admin" then Some(Admin)
    else if role == "editor" then Some(Editor)
    else if role == "viewer" then Some(Viewer)
    else None
  }

  /** POST /:id/invite: the role is checked before the caller; nothing is stored or sent. */
  function Invite(projectId: string, members: seq<Membership>, userId: string, email: string, role: string): Result<string, Reply> {
    if ParseRole(role).None? then Err(Reply(400, "Invalid role"))
    else if !LibIsAdmin(members, projectId, userId) then Err(Reply(403, "Only admins can invite"))
    else Ok("Invite to " + email + " with role " + role + " created (not sent)")
  }

  /** PATCH /:id/role: every row of the target user in the project gets the new role. */
  function ChangeRole(projectId: string, members: seq<Membership>, userId: string, targetUserId: string, newRole: string): Result<seq<Membership>, Reply> {
    if ParseRole(newRole).None? then Err(Reply(400, "Invalid role"))
    else if !LibIsAdmin(members, projectId, userId) then Err(Reply(403, "Only admins can update roles"))
    else Ok(seq(|members|, i requires 0 <= i < |members| =>
      if members[i].projectId == projectId && members[i].userId == targetUserId then members[i].(role := ParseRole(newRole)) else members[i]))
  }

  /**
    Inviting and changing a role: a role outside admin, editor and viewer is 400 whoever asks;
    a valid role from anybody but an admin member is 403; otherwise the invite succeeds, and
    the role change gives each of the target's rows in the project the new role and leaves
    every other row as it was.
  */
  lemma InviteAndRoleSpec(projectId: string, members: seq<Membership>, userId: string, email: string, targetUserId: string, role: string)
    ensures role !in {"admin", "editor", "viewer"} ==>
      Invite(projectId, members, userId, email, role) == Err(Reply(400, "Invalid role"))
      && ChangeRole(projectId, members, userId, targetUserId, role) == Err(Reply(400, "Invalid role"))
    ensures role in {"admin", "editor", "viewer"} ==>
      (Invite(projectId, members, userId, email, role).Ok? <==> LibIsAdmin(members, projectId, userId))
      && (ChangeRole(projectId, members, userId, targetUserId, role).Ok? <==> LibIsAdmin(members, projectId, userId))
      && (!LibIsAdmin(members, projectId, userId) ==>
            Invite(projectId, members, userId, email, role) == Err(Reply(403, "Only admins can invite"))
            && ChangeRole(projectId, members, userId, targetUserId, role) == Err(Reply(403, "Only admins can update roles")))
    ensures var r := ChangeRole(projectId, members, userId, targetUserId, role);
      r.Ok? ==>
        && |r.value| == |members|
        && forall i :: 0 <= i < |members| ==>
             if members[i].projectId == projectId && members[i].userId == targetUserId
             then r.value[i] == Membership(projectId, targetUserId, ParseRole(role)) && ParseRole(role).Some?
             else r.value[i] == members[i]
  {
  }

  /**
    PATCH /:id: the owner, or an admin member of a team project; a truthy name replaces the
    name and a truthy description the description. The body is read before the project is
    looked up.
  */
  function UpdateProject(projectId: string, project: Option<Project>, members: seq<Membership>, userId: string, name: Option<string>, description: Option<string>, projects: seq<Project>): Result<seq<Project>, Reply> {
    if project.None? then Err(FoundProject(project).error)
    else if !(project.value.userId == Some(userId) || (Truthy(project.value.teamId) && LibIsAdmin(members, projectId, userId))) then
      Err(Reply(403, "Only admins can update project"))
    else Ok(seq(|projects|, i requires 0 <= i < |projects| =>
      if projects[i].uuid == projectId then Patched(projects[i], name, description) else projects[i]))
  }

  /** `set({ ...(name && { name }), ...(description && { description }) })` on one row. */
  function Patched(p: Project, name: Option<string>, description: Option<string>): Project {
    var named := if Truthy(name) then p.(name := name.value) else p;
    if Truthy(description) then named.(description := description) else named
  }

  /**
    Renaming and deleting have different rules: the owner may always rename, and an admin may
    rename only a team project; an owner who is not an admin member of their own team project
    may rename it but not delete it.
  */
  lemma UpdateVersusDelete(projectId: string, p: Project, members: seq<Membership>, userId: string, name: Option<string>, description: Option<string>, projects: seq<Project>)
    requires p.uuid == projectId
    ensures UpdateProject(projectId, Some(p), members, userId, name, description, projects).Ok? <==>
      p.userId == Some(userId) || (Truthy(p.teamId) && LibIsAdmin(members, projectId, userId))
    ensures p.userId == Some(userId) && userId != "" && Truthy(p.teamId) && !LibIsAdmin(members, projectId, userId) ==>
      UpdateProject(projectId, Some(p), members, userId, name, description, projects).Ok?
      && DeleteProject(projectId, Some(p), members, userId, projects) == Err(Reply(403, "Only admins can delete this project"))
    ensures var r := UpdateProject(projectId, Some(p), members, userId, name, description, projects);
      r.Ok? ==> |r.value| == |projects| && forall i :: 0 <= i < |projects| ==>
        if projects[i].uuid != projectId then r.value[i] == projects[i]
        else
          && r.value[i].name == (if Truthy(name) then name.value else projects[i].name)
          && r.value[i].description == (if Truthy(description) then description else projects[i].description)
          && r.value[i].(name := projects[i].name, description := projects[i].description) == projects[i]
  {
  }

  /** One entry of the members list: a user and the membership role, or "owner". */
  datatype MemberEntry = MemberEntry(userId: string, role: ListedRole)

  /** The membership rows of the project as entries, in table order. */
  function RowsOf(members: seq<Membership>, projectId: string): (r: seq<MemberEntry>)
    ensures |r| <= |members|
  {
    if members == [] then []
    else
      var head := if members[0].projectId == projectId then [MemberEntry(members[0].userId, MemberRole(members[0].role))] else [];
      head + RowsOf(members[1..], projectId)
  }

  lemma {:induction false} RowsOfSpec(members: seq<Membership>, projectId: string)
    ensures forall e :: e in RowsOf(members, projectId) <==>
      e.role.MemberRole? && Membership(projectId, e.userId, e.role.role) in members
    decreases |members|
  {
    if members != [] {
      RowsOfSpec(members[1..], projectId);
      assert members == [members[0]] + members[1..];
    }
  }

  /** GET /:id/members: the project's membership rows, then the owner (pushed when there is one). */
  method ListMembers(projectId: string, project: Option<Project>, members: seq<Membership>, userId: string)
    returns (r: Result<seq<MemberEntry>, Reply>)
    ensures project.None? ==> r == Err(Reply(500, "Internal Server Error"))
    ensures project.Some? ==>
      (r.Err? <==> project.value.userId != Some(userId) && LibMembership(members, projectId, userId).None?)
    ensures r.Err? && project.Some? ==> r.error == Reply(403, "Forbidden")
    ensures r.Ok? ==>
      r.value == RowsOf(members, projectId) + (if Truthy(project.value.userId) then [MemberEntry(project.value.userId.value, Owner)] else [])
  {
    if project.None? {
      return Err(FoundProject(project).error);
    }
    var p := project.value;
    if p.userId != Some(userId) {
      var membership := LibMembership(members, projectId, userId);
      if membership.None? {
        return Err(Reply(403, "Forbidden"));
      }
    }
    var list := RowsOf(members, projectId);
    if Truthy(p.userId) {
      list := list + [MemberEntry(p.userId.value, Owner)];
    }
    r := Ok(list);
  }

  /**
    Whoever may read the members list is on it: the owner as the pushed "owner" entry, and any
    other reader through their own membership row; every entry but the last pushed one is a
    membership row of the project.
  */
  lemma ReaderIsListed(projectId: string, p: Project, members: seq<Membership>, userId: string)
    requires userId != ""
    requires p.userId == Some(userId) || LibMembership(members, projectId, userId).Some?
    ensures var list := RowsOf(members, projectId) + (if Truthy(p.userId) then [MemberEntry(p.userId.value, Owner)] else []);
      exists e :: e in list && e.userId == userId
    ensures forall e :: e in RowsOf(members, projectId) ==> e.role.MemberRole? && Membership(projectId, e.userId, e.role.role) in members
  {
    RowsOfSpec(members, projectId);
    var list := RowsOf(members, projectId) + (if Truthy(p.userId) then [MemberEntry(p.userId.value, Owner)] else []);
    if p.userId == Some(userId) {
      assert MemberEntry(userId, Owner) in list;
    } else {
      var m := LibMembership(members, projectId, userId).value;
      assert MemberEntry(userId, MemberRole(m.role)) in list;
    }
  }

  /** DELETE /:id/leave: members other than admins leave by deleting their rows of the project. */
  function Leave(projectId: string, members: seq<Membership>, userId: string): Result<seq<Membership>, Reply> {
    var m := LibMembership(members, projectId, userId);
    if m.None? then Err(Reply(400, "You are not a member of this project"))
    else if m.value.role == Some(Admin) then Err(Reply(403, "Admins cannot leave the project"))
    else Ok(Filter(members, (x: Membership) => !(x.projectId == projectId && x.userId == userId)))
  }

  /**
    Leaving: a non-member gets 400, an admin 403; anybody else (a role other than admin, or
    none) leaves, after which they have no membership of the project and every other row is kept.
  */
  lemma LeaveSpec(projectId: string, members: seq<Membership>, userId: string)
    ensures var m := LibMembership(members, projectId, userId);
      var r := Leave(projectId, members, userId);
      && (m.None? ==> r == Err(Reply(400, "You are not a member of this project")))
      && (m.Some? && m.value.role == Some(Admin) ==> r == Err(Reply(403, "Admins cannot leave the project")))
      && (r.Ok? <==> m.Some? && m.value.role != Some(Admin))
      && (r.Ok? ==>
            && LibMembership(r.value, projectId, userId).None?
            && forall x: Membership :: !(x.projectId == projectId && x.userId == userId) ==> (x in r.value <==> x in members))
  {
    var r := Leave(projectId, members, userId);
    if r.Ok? {
      FilterSpec(members, (x: Membership) => !(x.projectId == projectId && x.userId == userId));
      FirstMatch(r.value, projectId, userId);
    }
  }
}
