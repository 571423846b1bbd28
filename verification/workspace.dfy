/**
  The dashboard's workspace store: the list of workspaces the user can switch between and the
  active one. The store object is updated in place by its two setters; `State` is its value,
  and the transitions are stated as functions on that value.

  zustand's `set` builds the next state as `Object.assign({}, state, partial)`. That copy reads
  the initializer's `isPersonalWorkspace` getter once, against the state before the update, and
  stores the result as a plain value; later updates copy that value on. The model keeps this:
  the field is either still the getter or a copied boolean.
*/
module WorkspaceStore {
  import opened Wrappers

  /** A workspace as the store keeps it; the logo component is not modelled. `isPersonal` is optional. */
  datatype Workspace = Workspace(id: string, name: string, plan: string, isPersonal: Option<bool>)

  /** How the store holds `isPersonalWorkspace`: the initializer's getter, or the value a `set` copied. */
  datatype PersonalField = Getter | Copied(value: bool)

  datatype State = State(workspaces: seq<Workspace>, activeWorkspace: Option<Workspace>, isPersonalWorkspace: PersonalField)

  const Initial := State([], None, Getter)

  /**
    The getter's intended reading: the active workspace's flag, false when there is no active
    workspace or no flag.
  */
  predicate IsPersonal(s: State) {
    s.activeWorkspace.Some? && s.activeWorkspace.value.isPersonal == Some(true)
  }

  /** Reading `isPersonalWorkspace`: the getter evaluates against the current state; a copied value is returned as it is. */
  function ReadPersonal(s: State): bool {
    match s.isPersonalWorkspace
    case Getter => IsPersonal(s)
    case Copied(b) => b
  }

  /** `set(partial)`: the new list and active workspace, every other field copied as a plain value from the state before. */
  function Merge(s: State, workspaces: seq<Workspace>, activeWorkspace: Option<Workspace>): State {
    State(workspaces, activeWorkspace, Copied(ReadPersonal(s)))
  }

  /** `setWorkspaces`: the list is replaced; an active workspace is kept, else the first of the list (if any) becomes active. */
  function AfterSetWorkspaces(s: State, workspaces: seq<Workspace>): State {
    Merge(s, workspaces, if s.activeWorkspace.Some? then s.activeWorkspace else if |workspaces| > 0 then Some(workspaces[0]) else None)
  }

  /** `setActiveWorkspace`: `set({ activeWorkspace })`. */
  function AfterSetActiveWorkspace(s: State, workspace: Workspace): State {
    Merge(s, s.workspaces, Some(workspace))
  }

  /**
    What the store's states have in common: while the field is still the getter no workspace is
    active, and a copied value is false.
  */
  ghost predicate PersonalFlagFalse(s: State) {
    match s.isPersonalWorkspace
    case Getter => s.activeWorkspace.None?
    case Copied(b) => !b
  }

  class Store {
    var workspaces: seq<Workspace>
    var activeWorkspace: Option<Workspace>
    var isPersonalWorkspace: PersonalField

    function CurrentState(): State
      reads this
    {
      State(workspaces, activeWorkspace, isPersonalWorkspace)
    }

    ghost predicate Valid()
      reads this
    {
      PersonalFlagFalse(CurrentState())
    }

    constructor()
      ensures CurrentState() == Initial && Valid()
    {
      workspaces, activeWorkspace, isPersonalWorkspace := [], None, Getter;
    }

    method SetWorkspaces(list: seq<Workspace>)
      requires Valid()
      modifies this
      ensures CurrentState() == AfterSetWorkspaces(old(CurrentState()), list)
      ensures Valid()
    {
      var flag := ReadPersonal(CurrentState());
      workspaces := list;
      if activeWorkspace.None? && |list| > 0 {
        activeWorkspace := Some(list[0]);
      }
      isPersonalWorkspace := Copied(flag);
    }

    method SetActiveWorkspace(workspace: Workspace)
      requires Valid()
      modifies this
      ensures CurrentState() == AfterSetActiveWorkspace(old(CurrentState()), workspace)
      ensures Valid()
    {
      isPersonalWorkspace := Copied(ReadPersonal(CurrentState()));
      activeWorkspace := Some(workspace);
    }

    /** `useWorkspace().isPersonalWorkspace`: false in every state the store reaches. */
    function IsPersonalWorkspace(): (b: bool)
      reads this
      requires Valid()
      ensures !b
    {
      ReadPersonal(CurrentState())
    }
  }

  /** Both setters keep the flag false, and the initial state has it. */
  lemma PersonalFlagFalsePreserved(s: State, list: seq<Workspace>, workspace: Workspace)
    requires PersonalFlagFalse(s)
    ensures PersonalFlagFalse(AfterSetWorkspaces(s, list))
    ensures PersonalFlagFalse(AfterSetActiveWorkspace(s, workspace))
    ensures PersonalFlagFalse(Initial)
    ensures !ReadPersonal(s)
  {
  }

  /** One call on the store. */
  datatype Action = SetList(list: seq<Workspace>) | SetActive(workspace: Workspace)

  function Apply(s: State, a: Action): State {
    match a
    case SetList(list) => AfterSetWorkspaces(s, list)
    case SetActive(w) => AfterSetActiveWorkspace(s, w)
  }

  /** The state after a run of calls, in order. */
  function RunFrom(s: State, actions: seq<Action>): State
    decreases |actions|
  {
    if |actions| == 0 then s else RunFrom(Apply(s, actions[0]), actions[1..])
  }

  lemma {:induction false} RunKeepsPersonalFlagFalse(s: State, actions: seq<Action>)
    requires PersonalFlagFalse(s)
    ensures PersonalFlagFalse(RunFrom(s, actions))
    decreases |actions|
  {
    if |actions| > 0 {
      match actions[0] {
        case SetList(list) => PersonalFlagFalsePreserved(s, list, Workspace("", "", "", None));
        case SetActive(w) => PersonalFlagFalsePreserved(s, [], w);
      }
      RunKeepsPersonalFlagFalse(Apply(s, actions[0]), actions[1..]);
    }
  }

  /** Whatever calls are made, `isPersonalWorkspace` reads false. */
  lemma {:induction false} PersonalFlagAlwaysFalse(actions: seq<Action>)
    ensures !ReadPersonal(RunFrom(Initial, actions))
  {
    PersonalFlagFalsePreserved(Initial, [], Workspace("", "", "", None));
    RunKeepsPersonalFlagFalse(Initial, actions);
    PersonalFlagFalsePreserved(RunFrom(Initial, actions), [], Workspace("", "", "", None));
  }

  /**
    The stored flag does not follow the active workspace: making a personal workspace active
    leaves `isPersonalWorkspace` false although the getter's intended reading is true.
  */
  lemma PersonalFlagIgnoresActiveWorkspace(w: Workspace)
    requires w.isPersonal == Some(true)
    ensures var s := AfterSetActiveWorkspace(Initial, w);
      IsPersonal(s) && !ReadPersonal(s)
  {
  }

  /**
    `setWorkspaces` always installs the new list; it chooses an active workspace only when
    none is set: the first of the list, or none for an empty list. An active workspace, once
    set, stays whatever lists follow, even one that no longer holds it.
  */
  lemma SetWorkspacesSpec(s: State, workspaces: seq<Workspace>)
    ensures AfterSetWorkspaces(s, workspaces).workspaces == workspaces
    ensures s.activeWorkspace.Some? ==> AfterSetWorkspaces(s, workspaces).activeWorkspace == s.activeWorkspace
    ensures s.activeWorkspace.None? ==>
      (AfterSetWorkspaces(s, workspaces).activeWorkspace.Some? <==> |workspaces| > 0)
      && (|workspaces| > 0 ==> AfterSetWorkspaces(s, workspaces).activeWorkspace == Some(workspaces[0]))
    ensures ReadPersonal(AfterSetWorkspaces(s, workspaces)) == ReadPersonal(s)
  {
  }

  /** The active workspace can fall out of the list: after [a] then [b], a is still active although the list is [b]. */
  lemma StaleActiveWorkspace(a: Workspace, b: Workspace)
    requires a != b
    ensures var s := AfterSetWorkspaces(AfterSetWorkspaces(Initial, [a]), [b]);
      s.activeWorkspace == Some(a) && a !in s.workspaces
  {
  }

  /**
    `setActiveWorkspace` leaves the list alone and makes its argument active, even one outside
    the list. The intended reading is personal exactly when the active workspace says
    `isPersonal: true`; the stored flag keeps the value read before the call.
  */
  lemma SetActiveWorkspaceSpec(s: State, workspace: Workspace)
    ensures AfterSetActiveWorkspace(s, workspace).workspaces == s.workspaces
    ensures AfterSetActiveWorkspace(s, workspace).activeWorkspace == Some(workspace)
    ensures IsPersonal(AfterSetActiveWorkspace(s, workspace)) <==> workspace.isPersonal == Some(true)
    ensures ReadPersonal(AfterSetActiveWorkspace(s, workspace)) == ReadPersonal(s)
    ensures !IsPersonal(Initial)
  {
  }
}
