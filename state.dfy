/**
 * The per-project agent state stack of src/state.py. Each project has one
 * row holding a list of snapshots; the last snapshot is the current state.
 * The table is a map from project name to its stack (JSON encoding and
 * decoding are the identity here). The pure functions below give the store
 * after each operation; the class AgentState performs each operation as the
 * source does, as a read-modify-write of one project's stack.
 */
module AgentStateStore {
  import opened Wrappers

  datatype BrowserSession = BrowserSession(url: Option<string>, screenshot: Option<string>)

  datatype TerminalSession = TerminalSession(command: Option<string>, output: Option<string>, title: Option<string>)

  /** One recorded point-in-time view of an agent run. */
  datatype Snapshot = Snapshot(
    internalMonologue: Option<string>,
    browserSession: BrowserSession,
    terminalSession: TerminalSession,
    step: Option<string>,
    message: Option<string>,
    completed: bool,
    agentIsActive: bool,
    tokenUsage: int,
    timestamp: string)

  /** `new_state()`: the default snapshot, stamped with the time `now`. */
  function NewState(now: string): (s: Snapshot)
    ensures s.internalMonologue == None && s.step == None && s.message == None
    ensures s.browserSession == BrowserSession(None, None)
    ensures s.terminalSession == TerminalSession(None, None, None)
    ensures !s.completed && s.agentIsActive && s.tokenUsage == 0
    ensures s.timestamp == now
  {
    Snapshot(None, BrowserSession(None, None), TerminalSession(None, None, None),
             None, None, false, true, 0, now)
  }

  /** The `agent_state` table: project name to its snapshot stack. */
  type Store = map<string, seq<Snapshot>>

  /** Every stored stack has a last element, so every `[-1]` access succeeds. */
  predicate StacksNonEmpty(m: Store) {
    forall p :: p in m ==> |m[p]| > 0
  }

  /** The stacks of projects other than `p` are the same in `m` and `r`. */
  predicate OthersUnchanged(m: Store, r: Store, p: string) {
    (forall q :: q in m && q != p ==> q in r && r[q] == m[q]) &&
    (forall q :: q in r && q != p ==> q in m)
  }

  // ---------------------------------------------------------------------
  // Reads
  // ---------------------------------------------------------------------

  /** `get_current_state`: the whole stack, or None when the project has no row. */
  function CurrentState(m: Store, p: string): (r: Option<seq<Snapshot>>)
    ensures r.None? <==> p !in m
    ensures r.Some? ==> p in m && r.value == m[p]
  {
    if p in m then Some(m[p]) else None
  }

  /** `get_latest_state`: the last snapshot, or None when the project has no row. */
  function LatestState(m: Store, p: string): (r: Option<Snapshot>)
    requires p in m ==> |m[p]| > 0
    ensures r.Some? <==> p in m
    ensures r.Some? ==> r.value == m[p][|m[p]| - 1]
  {
    if p in m then Some(m[p][|m[p]| - 1]) else None
  }

  /** `is_agent_active`: the flag of the last snapshot, or None without a row. */
  function AgentActive(m: Store, p: string): (r: Option<bool>)
    requires p in m ==> |m[p]| > 0
    ensures r.Some? <==> LatestState(m, p).Some?
    ensures r.Some? ==> r.value == LatestState(m, p).value.agentIsActive
  {
    if p in m then Some(m[p][|m[p]| - 1].agentIsActive) else None
  }

  /** `is_agent_completed`: the flag of the last snapshot, or None without a row. */
  function AgentCompleted(m: Store, p: string): (r: Option<bool>)
    requires p in m ==> |m[p]| > 0
    ensures r.Some? <==> LatestState(m, p).Some?
    ensures r.Some? ==> r.value == LatestState(m, p).value.completed
  {
    if p in m then Some(m[p][|m[p]| - 1].completed) else None
  }

  /** `get_latest_token_usage`: the usage of the last snapshot, or 0 without a row. */
  function LatestTokenUsage(m: Store, p: string): (r: int)
    requires p in m ==> |m[p]| > 0
    ensures LatestState(m, p).None? ==> r == 0
    ensures LatestState(m, p).Some? ==> r == LatestState(m, p).value.tokenUsage
  {
    if p in m then m[p][|m[p]| - 1].tokenUsage else 0
  }

  // ---------------------------------------------------------------------
  // Writes: the store after each operation
  // ---------------------------------------------------------------------

  /** `delete_state`: the project's row is removed, if there is one. */
  function Deleted(m: Store, p: string): (r: Store)
    ensures p !in r
    ensures OthersUnchanged(m, r, p)
    ensures StacksNonEmpty(m) ==> StacksNonEmpty(r)
  {
    m - {p}
  }

  /**
   * `add_to_current_state`: an existing stack grows by exactly `s` at the end,
   * earlier snapshots untouched; an absent project gets the stack `[s]`.
   */
  function AddedToCurrent(m: Store, p: string, s: Snapshot): (r: Store)
    ensures p in r
    ensures p in m ==> |r[p]| == |m[p]| + 1 && r[p][..|m[p]|] == m[p] && r[p][|m[p]|] == s
    ensures p !in m ==> r[p] == [s]
    ensures OthersUnchanged(m, r, p)
    ensures StacksNonEmpty(m) ==> StacksNonEmpty(r)
  {
    if p in m then m[p := m[p] + [s]] else m[p := [s]]
  }

  /**
   * `update_latest_state`: an existing stack keeps its length and only its last
   * snapshot is replaced by `s`; an absent project gets the stack `[s]`.
   */
  function LatestUpdated(m: Store, p: string, s: Snapshot): (r: Store)
    requires p in m ==> |m[p]| > 0
    ensures p in r
    ensures p in m ==> |r[p]| == |m[p]| && r[p][..|m[p]| - 1] == m[p][..|m[p]| - 1] && r[p][|m[p]| - 1] == s
    ensures p !in m ==> r[p] == [s]
    ensures OthersUnchanged(m, r, p)
    ensures StacksNonEmpty(m) ==> StacksNonEmpty(r)
  {
    if p in m then m[p := m[p][|m[p]| - 1 := s]] else m[p := [s]]
  }

  /** The three in-place patches of the last snapshot. */
  datatype Patch =
    | SetActive(isActive: bool)          // set_agent_active
    | SetCompleted(isCompleted: bool)    // set_agent_completed
    | AddTokenUsage(amount: int)         // update_token_usage

  /** The two snapshots agree on every field that no patch touches. */
  predicate SameUnpatchedFields(a: Snapshot, b: Snapshot) {
    a.internalMonologue == b.internalMonologue && a.browserSession == b.browserSession &&
    a.terminalSession == b.terminalSession && a.step == b.step && a.message == b.message &&
    a.timestamp == b.timestamp
  }

  /** A patch applied to an existing last snapshot changes its one field only. */
  function Patched(s: Snapshot, patch: Patch): (r: Snapshot)
    ensures SameUnpatchedFields(s, r)
    ensures r.agentIsActive == if patch.SetActive? then patch.isActive else s.agentIsActive
    ensures r.completed == if patch.SetCompleted? then patch.isCompleted else s.completed
    ensures r.tokenUsage == if patch.AddTokenUsage? then s.tokenUsage + patch.amount else s.tokenUsage
  {
    match patch
    case SetActive(b) => s.(agentIsActive := b)
    case SetCompleted(b) => s.(completed := b)
    case AddTokenUsage(k) => s.(tokenUsage := s.tokenUsage + k)
  }

  /**
   * The single snapshot stored when a patch meets an absent project: a default
   * snapshot with the field set (`token_usage` is assigned, not added to).
   */
  function Seeded(patch: Patch, now: string): (r: Snapshot)
    ensures SameUnpatchedFields(NewState(now), r)
    ensures r.agentIsActive == if patch.SetActive? then patch.isActive else true
    ensures r.completed == if patch.SetCompleted? then patch.isCompleted else false
    ensures r.tokenUsage == if patch.AddTokenUsage? then patch.amount else 0
  {
    match patch
    case SetActive(b) => NewState(now).(agentIsActive := b)
    case SetCompleted(b) => NewState(now).(completed := b)
    case AddTokenUsage(k) => NewState(now).(tokenUsage := k)
  }

  /** Seeding an absent project is the same as patching a default snapshot. */
  lemma SeededIsPatchedDefault(patch: Patch, now: string)
    ensures Seeded(patch, now) == Patched(NewState(now), patch)
  {
  }

  /**
   * `set_agent_active`, `set_agent_completed`, `update_token_usage`: an existing
   * stack keeps its length and earlier snapshots, and only the patched field of
   * the last snapshot changes; an absent project gets one seeded snapshot.
   */
  function LatestPatched(m: Store, p: string, patch: Patch, now: string): (r: Store)
    requires p in m ==> |m[p]| > 0
    ensures p in r
    ensures p in m ==> |r[p]| == |m[p]| && r[p][..|m[p]| - 1] == m[p][..|m[p]| - 1]
    ensures p in m ==> r[p][|m[p]| - 1] == Patched(m[p][|m[p]| - 1], patch)
    ensures p !in m ==> r[p] == [Seeded(patch, now)]
    ensures OthersUnchanged(m, r, p)
    ensures StacksNonEmpty(m) ==> StacksNonEmpty(r)
  {
    if p in m then
      var stack := m[p];
      m[p := stack[|stack| - 1 := Patched(stack[|stack| - 1], patch)]]
    else
      m[p := [Seeded(patch, now)]]
  }

  // ---------------------------------------------------------------------
  // What a write followed by a read observes
  // ---------------------------------------------------------------------

  lemma AddThenLatest(m: Store, p: string, s: Snapshot)
    ensures LatestState(AddedToCurrent(m, p, s), p) == Some(s)
  {
  }

  lemma UpdateThenLatest(m: Store, p: string, s: Snapshot)
    requires p in m ==> |m[p]| > 0
    ensures LatestState(LatestUpdated(m, p, s), p) == Some(s)
  {
  }

  /** `set_agent_active(p, b)` then `is_agent_active(p)` gives `b`; likewise for completion. */
  lemma SetFlagThenRead(m: Store, p: string, b: bool, now: string)
    requires p in m ==> |m[p]| > 0
    ensures AgentActive(LatestPatched(m, p, SetActive(b), now), p) == Some(b)
    ensures AgentCompleted(LatestPatched(m, p, SetCompleted(b), now), p) == Some(b)
  {
  }

  /** `update_token_usage(p, k)` then `get_latest_token_usage(p)` is the old usage (0 without a row) plus `k`. */
  lemma TokenUsageAdds(m: Store, p: string, k: int, now: string)
    requires p in m ==> |m[p]| > 0
    ensures LatestTokenUsage(LatestPatched(m, p, AddTokenUsage(k), now), p) == LatestTokenUsage(m, p) + k
  {
  }

  /** After `delete_state(p)` every read of `p` reports an absent project. */
  lemma DeleteThenReads(m: Store, p: string)
    ensures CurrentState(Deleted(m, p), p) == None
    ensures LatestState(Deleted(m, p), p) == None
    ensures AgentActive(Deleted(m, p), p) == None
    ensures AgentCompleted(Deleted(m, p), p) == None
    ensures LatestTokenUsage(Deleted(m, p), p) == 0
  {
  }

  // ---------------------------------------------------------------------
  // Invariants over any sequence of operations
  // ---------------------------------------------------------------------

  /** One write of the module, addressed to the project it names. */
  datatype Op =
    | Delete(project: string)
    | Add(project: string, state: Snapshot)
    | UpdateLatest(project: string, state: Snapshot)
    | PatchLatest(project: string, patch: Patch, now: string)

  function Step(m: Store, op: Op): (r: Store)
    requires StacksNonEmpty(m)
    ensures StacksNonEmpty(r)
  {
    match op
    case Delete(p) => Deleted(m, p)
    case Add(p, s) => AddedToCurrent(m, p, s)
    case UpdateLatest(p, s) => LatestUpdated(m, p, s)
    case PatchLatest(p, patch, now) => LatestPatched(m, p, patch, now)
  }

  function Run(m: Store, ops: seq<Op>): Store
    requires StacksNonEmpty(m)
    decreases |ops|
  {
    if ops == [] then m else Run(Step(m, ops[0]), ops[1..])
  }

  /** No sequence of operations leaves an empty stack behind. */
  lemma {:induction false} RunKeepsStacksNonEmpty(m: Store, ops: seq<Op>)
    requires StacksNonEmpty(m)
    decreases |ops|
    ensures StacksNonEmpty(Run(m, ops))
  {
    if ops != [] {
      RunKeepsStacksNonEmpty(Step(m, ops[0]), ops[1..]);
    }
  }

  /** Operations on other projects never touch the stack of `p`, nor its absence. */
  lemma {:induction false} RunFramesOtherProjects(m: Store, ops: seq<Op>, p: string)
    requires StacksNonEmpty(m)
    decreases |ops|
    requires forall i :: 0 <= i < |ops| ==> ops[i].project != p
    ensures p in Run(m, ops) <==> p in m
    ensures p in m ==> Run(m, ops)[p] == m[p]
  {
    if ops != [] {
      RunFramesOtherProjects(Step(m, ops[0]), ops[1..], p);
    }
  }

  /**
   * Without a deletion of `p`, its stack never shrinks and every snapshot
   * before the current last one stays as it was: the history is append-only
   * except for its last element.
   */
  lemma {:induction false} RunKeepsHistory(m: Store, ops: seq<Op>, p: string)
    requires StacksNonEmpty(m) && p in m
    decreases |ops|
    requires forall i :: 0 <= i < |ops| ==> ops[i] != Delete(p)
    ensures p in Run(m, ops)
    ensures |Run(m, ops)[p]| >= |m[p]|
    ensures Run(m, ops)[p][..|m[p]| - 1] == m[p][..|m[p]| - 1]
  {
    if ops != [] {
      var m' := Step(m, ops[0]);
      assert p in m' && |m'[p]| >= |m[p]| && m'[p][..|m[p]| - 1] == m[p][..|m[p]| - 1] by {
        if ops[0].project == p {
          match ops[0]
          case Add(_, s) =>
            assert m'[p][..|m[p]| - 1] == m'[p][..|m[p]|][..|m[p]| - 1];
          case UpdateLatest(_, _) =>
          case PatchLatest(_, _, _) =>
        }
      }
      RunKeepsHistory(m', ops[1..], p);
      var r := Run(m', ops[1..]);
      assert r[p][..|m[p]| - 1] == r[p][..|m'[p]| - 1][..|m[p]| - 1];
    }
  }

  // ---------------------------------------------------------------------
  // The table as the source updates it
  // ---------------------------------------------------------------------

  class AgentState {
    var stacks: Store

    ghost predicate Valid()
      reads this
    {
      StacksNonEmpty(stacks)
    }

    /** Attaches to the persisted `agent_state` table, whose every stored stack is non-empty. */
    constructor (persisted: Store)
      requires StacksNonEmpty(persisted)
      ensures Valid() && stacks == persisted
    {
      stacks := persisted;
    }

    method DeleteState(project: string)
      requires Valid()
      modifies this
      ensures Valid() && stacks == Deleted(old(stacks), project)
    {
      if project in stacks {
        stacks := stacks - {project};
      }
    }

    method AddToCurrentState(project: string, state: Snapshot)
      requires Valid()
      modifies this
      ensures Valid() && stacks == AddedToCurrent(old(stacks), project, state)
    {
      if project in stacks {
        var stateStack := stacks[project];
        stateStack := stateStack + [state];
        stacks := stacks[project := stateStack];
      } else {
        stacks := stacks[project := [state]];
      }
    }

    method GetCurrentState(project: string) returns (r: Option<seq<Snapshot>>)
      requires Valid()
      ensures r == CurrentState(stacks, project)
    {
      if project in stacks {
        return Some(stacks[project]);
      }
      return None;
    }

    method UpdateLatestState(project: string, state: Snapshot)
      requires Valid()
      modifies this
      ensures Valid() && stacks == LatestUpdated(old(stacks), project, state)
    {
      if project in stacks {
        var stateStack := stacks[project];
        stateStack := stateStack[|stateStack| - 1 := state];
        stacks := stacks[project := stateStack];
      } else {
        stacks := stacks[project := [state]];
      }
    }

    method GetLatestState(project: string) returns (r: Option<Snapshot>)
      requires Valid()
      ensures r == LatestState(stacks, project)
    {
      if project in stacks {
        var stateStack := stacks[project];
        return Some(stateStack[|stateStack| - 1]);
      }
      return None;
    }

    /** The source's `set_agent_active(project, is_active)`; `now` stands for the clock. */
    method SetAgentActive(project: string, isActive: bool, now: string)
      requires Valid()
      modifies this
      ensures Valid() && stacks == LatestPatched(old(stacks), project, SetActive(isActive), now)
    {
      if project in stacks {
        var stateStack := stacks[project];
        var last := |stateStack| - 1;
        stateStack := stateStack[last := stateStack[last].(agentIsActive := isActive)];
        stacks := stacks[project := stateStack];
      } else {
        var stateStack := [NewState(now)];
        stateStack := stateStack[0 := stateStack[0].(agentIsActive := isActive)];
        assert stateStack == [Seeded(SetActive(isActive), now)];
        stacks := stacks[project := stateStack];
      }
    }

    method IsAgentActive(project: string) returns (r: Option<bool>)
      requires Valid()
      ensures r == AgentActive(stacks, project)
    {
      if project in stacks {
        var stateStack := stacks[project];
        return Some(stateStack[|stateStack| - 1].agentIsActive);
      }
      return None;
    }

    method SetAgentCompleted(project: string, isCompleted: bool, now: string)
      requires Valid()
      modifies this
      ensures Valid() && stacks == LatestPatched(old(stacks), project, SetCompleted(isCompleted), now)
    {
      if project in stacks {
        var stateStack := stacks[project];
        var last := |stateStack| - 1;
        stateStack := stateStack[last := stateStack[last].(completed := isCompleted)];
        stacks := stacks[project := stateStack];
      } else {
        var stateStack := [NewState(now)];
        stateStack := stateStack[0 := stateStack[0].(completed := isCompleted)];
        assert stateStack == [Seeded(SetCompleted(isCompleted), now)];
        stacks := stacks[project := stateStack];
      }
    }

    method IsAgentCompleted(project: string) returns (r: Option<bool>)
      requires Valid()
      ensures r == AgentCompleted(stacks, project)
    {
      if project in stacks {
        var stateStack := stacks[project];
        return Some(stateStack[|stateStack| - 1].completed);
      }
      return None;
    }

    method UpdateTokenUsage(project: string, tokenUsage: int, now: string)
      requires Valid()
      modifies this
      ensures Valid() && stacks == LatestPatched(old(stacks), project, AddTokenUsage(tokenUsage), now)
    {
      if project in stacks {
        var stateStack := stacks[project];
        var last := |stateStack| - 1;
        stateStack := stateStack[last := stateStack[last].(tokenUsage := stateStack[last].tokenUsage + tokenUsage)];
        stacks := stacks[project := stateStack];
      } else {
        var stateStack := [NewState(now)];
        stateStack := stateStack[0 := stateStack[0].(tokenUsage := tokenUsage)];
        assert stateStack == [Seeded(AddTokenUsage(tokenUsage), now)];
        stacks := stacks[project := stateStack];
      }
    }

    method GetLatestTokenUsage(project: string) returns (r: int)
      requires Valid()
      ensures r == LatestTokenUsage(stacks, project)
    {
      if project in stacks {
        var stateStack := stacks[project];
        return stateStack[|stateStack| - 1].tokenUsage;
      }
      return 0;
    }
  }
}
