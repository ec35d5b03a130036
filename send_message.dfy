/**
 * The one decision the request handler `send_message` (devika.py:168-177)
 * makes over the two tables: the user's message is always appended to the
 * project's log, and a follow-up run is launched only when the project's
 * current snapshot says the agent has completed. Launching the run itself (a
 * background thread) is not modelled; the method reports whether it happens.
 */
module Coordinator {
  import opened Wrappers
  import AgentStateStore
  import Projects

  /** A follow-up run starts only when `is_agent_completed` is truthy (for the bool-typed flag, `Some(true)`). */
  function ResumeAllowed(m: AgentStateStore.Store, p: string): (r: bool)
    requires AgentStateStore.StacksNonEmpty(m)
    ensures r <==> p in m && m[p][|m[p]| - 1].completed
  {
    AgentStateStore.AgentCompleted(m, p) == Some(true)
  }

  /** A project without state never launches a run; marking it completed allows one, deleting it forbids it again. */
  lemma ResumeAfterWrites(m: AgentStateStore.Store, p: string, now: string)
    requires AgentStateStore.StacksNonEmpty(m)
    ensures p !in m ==> !ResumeAllowed(m, p)
    ensures ResumeAllowed(AgentStateStore.LatestPatched(m, p, AgentStateStore.SetCompleted(true), now), p)
    ensures !ResumeAllowed(AgentStateStore.LatestPatched(m, p, AgentStateStore.SetCompleted(false), now), p)
    ensures !ResumeAllowed(AgentStateStore.Deleted(m, p), p)
  {
  }

  /**
   * `send_message`: stores the user's message (whatever the state) and
   * reports whether a follow-up run is launched.
   */
  method SendMessage(manager: Projects.ProjectManager, state: AgentStateStore.AgentState,
                     projectName: string, message: Option<string>, now: string)
    returns (launch: bool)
    requires state.Valid()
    modifies manager
    ensures manager.rows == Projects.MessageAdded(old(manager.rows), projectName, Projects.Message(false, message, now))
    ensures launch == ResumeAllowed(state.stacks, projectName)
  {
    var newMessage := Projects.NewMessage(now);
    newMessage := newMessage.(text := message);
    newMessage := newMessage.(fromDevika := false);
    manager.AddMessageToProject(projectName, newMessage);
    var completed := state.IsAgentCompleted(projectName);
    launch := completed == Some(true);
  }
}
