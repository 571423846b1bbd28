/**
  Creating a project (POST /projects/new): the search for a free slug, the plan limits on
  personal and team projects, and the rows the handler inserts. The slug helper, the user
  row, the project counts and the new id are inputs; the body's schema check is a None body.
*/
module ProjectCreation {
  import opened Wrappers
  import opened Strings
  import opened Calendar
  import opened ProjectHelpers
  import opened Hex
  import opened ApiKeys

  /** The k-th slug tried: the base itself, then base-1, base-2, and so on. */
  function Attempt(slugBase: string, k: nat): string {
    if k == 0 then slugBase else slugBase + "-" + NatToString(k)
  }

  /** Different attempts are different slugs. */
  lemma AttemptInjective(slugBase: string, i: nat, j: nat)
    requires Attempt(slugBase, i) == Attempt(slugBase, j)
    ensures i == j
  {
    if i != 0 && j != 0 {
      var a, b := Attempt(slugBase, i), Attempt(slugBase, j);
      assert a[|slugBase| + 1..] == NatToString(i);
      assert b[|slugBase| + 1..] == NatToString(j);
      NatToStringInjective(i, j);
    }
  }

  /** The slug the loop settles on: the first attempt that no project uses. */
  ghost predicate FirstFreeSlug(slugBase: string, slug: string, taken: set<string>) {
    && slug !in taken
    && exists k: nat :: slug == Attempt(slugBase, k) && forall j: nat :: j < k ==> Attempt(slugBase, j) in taken
  }

  /** There is one first free slug: the loop's answer is determined by the slugs in use. */
  lemma FirstFreeSlugUnique(slugBase: string, a: string, b: string, taken: set<string>)
    requires FirstFreeSlug(slugBase, a, taken) && FirstFreeSlug(slugBase, b, taken)
    ensures a == b
  {
    var i: nat :| a == Attempt(slugBase, i) && forall j: nat :: j < i ==> Attempt(slugBase, j) in taken;
    var k: nat :| b == Attempt(slugBase, k) && forall j: nat :: j < k ==> Attempt(slugBase, j) in taken;
  }

  /** The slug loop: try the base, then base-1, base-2, … until no project has the slug. */
  method UniqueSlug(slugBase: string, taken: set<string>) returns (slug: string)
    ensures FirstFreeSlug(slugBase, slug, taken)
  {
    slug := slugBase;
    var count := 1;
    ghost var tried: set<string> := {};
    while slug in taken
      invariant count >= 1
      invariant slug == Attempt(slugBase, count - 1)
      invariant forall j: nat :: j < count - 1 ==> Attempt(slugBase, j) in taken
      invariant tried <= taken
      invariant forall s :: s in tried ==> exists j: nat :: j < count - 1 && s == Attempt(slugBase, j)
      decreases |taken - tried|
    {
      forall s | s in tried
        ensures s != slug
      {
        var j: nat :| j < count - 1 && s == Attempt(slugBase, j);
        if s == slug {
          AttemptInjective(slugBase, j, count - 1);
        }
      }
      assert (taken - tried) == (taken - (tried + {slug})) + {slug};
      tried := tried + {slug};
      slug := slugBase + "-" + NatToString(count);
      count := count + 1;
    }
  }

  /** The validated body; `teamId` is optional. */
  datatype NewProject = NewProject(name: string, description: Option<string>, teamId: Option<string>)

  /** An error response: status and message. */
  datatype Reply = Reply(status: int, error: string)

  /** `!teamId`: no team id, or an empty one. */
  predicate NoTeam(teamId: Option<string>) {
    teamId.None? || teamId.value == ""
  }

  /**
    The checks after the body and the slug: the user's row (its plan) must exist; a personal
    project is refused to a free user with 5 or more personal projects; a team project needs the
    team, and is refused to a free user (first by the team's count, then in any case). The
    answer is whether the project goes to a team.
  */
  function CreateGate(plan: Option<string>, teamId: Option<string>, personalCount: nat, teamFound: bool, teamCount: nat): Result<bool, Reply> {
    if plan.None? then Err(Reply(404, "User not found"))
    else if NoTeam(teamId) then
      if plan.value == "free" && personalCount >= 5 then Err(Reply(403, "Free plan limit reached")) else Ok(false)
    else if !teamFound then Err(Reply(404, "Team not found"))
    else if plan.value == "free" && teamCount >= 5 then Err(Reply(403, "Team free plan limit reached (user's plan applies)"))
    else if plan.value == "free" then Err(Reply(403, "Upgrade your account to pro to continue"))
    else Ok(true)
  }

  /** What a successful creation inserts: the project, the creator's membership of a team project, and the project's key pair. */
  datatype Created = Created(project: Project, membership: Option<Membership>, keys: KeyPair)

  /**
    The rows inserted: a personal project owned by the user, or a team project without owner
    whose creator becomes an admin member; either way with the body's name and description
    and a fresh key pair.
  */
  function NewRows(userId: string, input: NewProject, slug: string, newId: string, now: Instant, inTeam: bool, keys: KeyPair): Created {
    if inTeam then Created(Project(newId, input.name, slug, input.description, None, input.teamId, Some(now)), Some(Membership(newId, userId, Some(Admin))), keys)
    else Created(Project(newId, input.name, slug, input.description, Some(userId), None, Some(now)), None, keys)
  }

  /** The handler, given the slug helper and what its queries return. */
  method CreateProject(
    userId: string, body: Result<NewProject, string>, slugify: string -> string, taken: set<string>,
    plan: Option<string>, personalCount: nat, teamFound: bool, teamCount: nat, newId: string, now: Instant,
    publicBytes: seq<Byte>, secretBytes: seq<Byte>)
    returns (r: Result<Created, Reply>)
    requires |publicBytes| == 16 && |secretBytes| == 32
    ensures body.Err? ==> r == Err(Reply(400, body.error))
    ensures body.Ok? && CreateGate(plan, body.value.teamId, personalCount, teamFound, teamCount).Err? ==>
      r == Err(CreateGate(plan, body.value.teamId, personalCount, teamFound, teamCount).error)
    ensures body.Ok? && CreateGate(plan, body.value.teamId, personalCount, teamFound, teamCount).Ok? ==>
      && r.Ok?
      && FirstFreeSlug(slugify(body.value.name), r.value.project.slug, taken)
      && r.value == NewRows(userId, body.value, r.value.project.slug, newId, now,
                            CreateGate(plan, body.value.teamId, personalCount, teamFound, teamCount).value,
                            GenerateApiKeys(publicBytes, secretBytes))
  {
    if body.Err? {
      return Err(Reply(400, body.error));
    }
    var input := body.value;
    var slug := UniqueSlug(slugify(input.name), taken);
    var gate := CreateGate(plan, input.teamId, personalCount, teamFound, teamCount);
    if gate.Err? {
      return Err(gate.error);
    }
    r := Ok(NewRows(userId, input, slug, newId, now, gate.value, GenerateApiKeys(publicBytes, secretBytes)));
  }

  /**
    The plan limits: a free user never gets a team project, and gets a personal one exactly
    while owning fewer than 5; any other plan gets a personal project always and a team project
    whenever the team exists. A missing user row is 404 before either.
  */
  lemma FreePlanLimits(plan: Option<string>, teamId: Option<string>, personalCount: nat, teamFound: bool, teamCount: nat)
    ensures plan.None? ==> CreateGate(plan, teamId, personalCount, teamFound, teamCount) == Err(Reply(404, "User not found"))
    ensures plan == Some("free") ==> CreateGate(plan, teamId, personalCount, teamFound, teamCount) != Ok(true)
    ensures plan == Some("free") && NoTeam(teamId) ==>
      (CreateGate(plan, teamId, personalCount, teamFound, teamCount) == Ok(false) <==> personalCount < 5)
    ensures plan == Some("free") && !NoTeam(teamId) && teamFound ==>
      CreateGate(plan, teamId, personalCount, teamFound, teamCount).Err?
      && CreateGate(plan, teamId, personalCount, teamFound, teamCount).error.status == 403
    ensures plan.Some? && plan.value != "free" ==>
      CreateGate(plan, teamId, personalCount, teamFound, teamCount) ==
        (if NoTeam(teamId) then Ok(false) else if teamFound then Ok(true) else Err(Reply(404, "Team not found")))
  {
  }

  /**
    What is inserted: the project carries the chosen slug, the name and the description; a personal project is
    owned by the creator and has no team; a team project has the team and no owner, and its
    creator is an admin member, so the creator passes `isOwnerOrAdmin` on the new project either
    way.
  */
  lemma NewRowsSpec(userId: string, input: NewProject, slug: string, newId: string, now: Instant, inTeam: bool, keys: KeyPair, members: seq<Membership>)
    requires userId != ""
    ensures var Created(p, m, k) := NewRows(userId, input, slug, newId, now, inTeam, keys);
      && k == keys
      && p.slug == slug && p.name == input.name && p.description == input.description && p.uuid == newId
      && (!inTeam ==> p.userId == Some(userId) && p.teamId.None? && m.None?)
      && (inTeam ==> p.userId.None? && p.teamId == input.teamId && m == Some(Membership(newId, userId, Some(Admin))))
      && IsOwnerOrAdmin(if m.Some? then [m.value] + members else members, p, userId)
  {
  }
}
