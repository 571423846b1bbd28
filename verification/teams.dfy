/**
  The team routes: listing the caller's teams with the caller's role in each, and creating a
  team (paid plans only) with a slug derived from its name and the creator as its owner.
*/
module Teams {
  import opened Wrappers
  import opened Strings

  /** The `team_role` enum. */
  datatype TeamRole = Owner | Member | Viewer

  datatype Team = Team(uuid: string, name: string, slug: string, ownerId: string)

  /** One row of `team_members`; the role is nullable (its default is "member"). */
  datatype TeamMember = TeamMember(teamId: string, userId: string, role: Option<TeamRole>)

  datatype User = User(uuid: string, subscriptionType: string)

  /** An error response: status and message. */
  datatype Reply = Reply(status: int, error: string)

  /** The text with every run of white space (`\s+`) replaced by one "-". */
  function DashWhitespaceRuns(s: string): (r: string)
    decreases |s|
  {
    if s == [] then []
    else if IsJsWhitespace(s[0]) then "-" + DashWhitespaceRuns(TrimStart(s))
    else [s[0]] + DashWhitespaceRuns(s[1..])
  }

  /** `name.toLowerCase().replace(/\s+/g, "-")`. */
  function TeamSlug(name: string): string {
    DashWhitespaceRuns(ToLower(name))
  }

  /** The run replacement leaves no white space: every character is a dash or a character of s that is not white space. */
  lemma {:induction false} DashedCharacters(s: string)
    ensures forall c :: c in DashWhitespaceRuns(s) ==> c == '-' || (c in s && !IsJsWhitespace(c))
    decreases |s|
  {
    if s != [] {
      var t := if IsJsWhitespace(s[0]) then TrimStart(s) else s[1..];
      DashedCharacters(t);
      assert t == s[|s| - |t|..];
      assert forall c :: c in t ==> c in s;
    }
  }

  /** A text without white space is left as it is. */
  lemma {:induction false} DashingWithoutWhitespace(s: string)
    requires forall c :: c in s ==> !IsJsWhitespace(c)
    ensures DashWhitespaceRuns(s) == s
    decreases |s|
  {
    if s != [] {
      assert s[0] in s;
      assert forall c :: c in s[1..] ==> c in s;
      DashingWithoutWhitespace(s[1..]);
    }
  }

  /**
    A team slug holds no white space and no upper-case letter (so the slug of a slug is
    itself); apart from the dashes that replace white space, its characters are the name's,
    lower-cased.
  */
  lemma TeamSlugSpec(name: string)
    ensures var slug := TeamSlug(name);
      && (forall c :: c in slug ==> !IsJsWhitespace(c) && !('A' <= c <= 'Z'))
      && (forall c :: c in slug ==> c == '-' || c in ToLower(name))
      && TeamSlug(slug) == slug
  {
    var lower := ToLower(name);
    var slug := TeamSlug(name);
    DashedCharacters(lower);
    assert forall c :: c in lower ==> !('A' <= c <= 'Z');
    forall i | 0 <= i < |slug|
      ensures ToLower(slug)[i] == slug[i]
    {
      assert slug[i] in slug;
    }
    assert ToLower(slug) == slug;
    DashingWithoutWhitespace(slug);
    assert TeamSlug(slug) == DashWhitespaceRuns(ToLower(slug));
  }

  /** GET /teams: one entry per membership of the caller whose team exists, with the caller's role in it. */
  datatype TeamWithRole = TeamWithRole(team: Team, role: Option<TeamRole>)

  function TeamsOfMember(memberships: seq<TeamMember>, teams: map<string, Team>, userId: string): (r: seq<TeamWithRole>)
    ensures |r| <= |memberships|
  {
    if memberships == [] then []
    else
      var rest := TeamsOfMember(memberships[1..], teams, userId);
      var m := memberships[0];
      if m.userId == userId && m.teamId in teams then [TeamWithRole(teams[m.teamId], m.role)] + rest else rest
  }

  function ListTeams(user: Option<User>, memberships: seq<TeamMember>, teams: map<string, Team>): Result<seq<TeamWithRole>, Reply> {
    if user.None? || user.value.uuid == "" then Err(Reply(401, "Unauthorized"))
    else Ok(TeamsOfMember(memberships, teams, user.value.uuid))
  }

  /**
    The caller's teams: without a signed-in user the answer is 401; otherwise an entry is
    listed exactly when the caller holds a membership of an existing team with that role, and
    the entry is that team record with the membership's role.
  */
  lemma {:induction false} TeamsOfMemberSpec(memberships: seq<TeamMember>, teams: map<string, Team>, userId: string)
    ensures forall t :: t in TeamsOfMember(memberships, teams, userId) <==>
      exists m :: m in memberships && m.userId == userId && m.teamId in teams && t == TeamWithRole(teams[m.teamId], m.role)
    decreases |memberships|
  {
    if memberships != [] {
      TeamsOfMemberSpec(memberships[1..], teams, userId);
      assert memberships == [memberships[0]] + memberships[1..];
    }
  }

  /** POST /teams, given the new team's id: the team and the creator's membership, or the error. */
  function CreateTeam(user: Option<User>, name: string, newId: string): Result<(Team, TeamMember), Reply> {
    if user.None? || user.value.uuid == "" then Err(Reply(401, "Unauthorized"))
    else if user.value.subscriptionType == "free" then Err(Reply(403, "Upgrade to Pro to create teams"))
    else
      var team := Team(newId, name, TeamSlug(name), user.value.uuid);
      Ok((team, TeamMember(team.uuid, user.value.uuid, Some(Owner))))
  }

  /**
    Creating a team: no signed-in user is 401 and the free plan is 403, before anything is
    created; any other plan creates the team with the given name and its slug, owned by the
    creator, and the creator becomes its member with the role "owner".
  */
  lemma CreateTeamSpec(user: Option<User>, name: string, newId: string)
    ensures user.None? || user.value.uuid == "" ==> CreateTeam(user, name, newId) == Err(Reply(401, "Unauthorized"))
    ensures user.Some? && user.value.uuid != "" ==>
      (CreateTeam(user, name, newId) == Err(Reply(403, "Upgrade to Pro to create teams")) <==> user.value.subscriptionType == "free")
    ensures CreateTeam(user, name, newId).Ok? ==>
      var (team, member) := CreateTeam(user, name, newId).value;
      && team.name == name && team.slug == TeamSlug(name) && team.ownerId == user.value.uuid
      && member == TeamMember(team.uuid, user.value.uuid, Some(Owner))
      && ListTeams(user, [member], map[team.uuid := team]) == Ok([TeamWithRole(team, Some(Owner))])
  {
    if CreateTeam(user, name, newId).Ok? {
      var (team, member) := CreateTeam(user, name, newId).value;
      var teams := map[team.uuid := team];
      assert [member][1..] == [];
      assert TeamsOfMember([], teams, member.userId) == [];
      assert TeamsOfMember([member], teams, member.userId) == [TeamWithRole(team, Some(Owner))];
    }
  }
}
