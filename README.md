# Devika project bookkeeping, modelled in Dafny

Devika records two things per project in SQLite:

- **The agent state stack** (`AgentState`, `src/state.py`): a list of snapshots per project. The last snapshot is the current state. Writes append a snapshot, replace the last one, or patch one field of the last one (`agent_is_active`, `completed`, `token_usage`). Every write creates the row if it is missing.
- **The project message log** (`ProjectManager`, `src/project.py`): a table of rows, each a project name and its list of messages. Creation always inserts a row. Every lookup takes the first row with the name.

It also reads a project's files back as a markdown code set (`ReadCode`, `src/filesystem/read_code.py`). The request handler `send_message` combines the two tables to decide whether a follow-up run starts.

The model has six modules:

- `Wrappers`: the `Option` type, for Python's `None`.
- `Paths`: the project directory name. The name is lower-cased and spaces become hyphens, and the result is joined onto the projects directory.
- `AgentStateStore`: the agent state table.
  - The table is a map from project to `seq<Snapshot>`.
  - Pure functions give the table after each write (`AddedToCurrent`, `LatestUpdated`, `LatestPatched`, `Deleted`) and what each read returns.
  - The class `AgentState` performs each operation as the source does, as a read-modify-write of one stack. Each method is proved equal to its function.
  - Lemmas prove the write-then-read round trips. Lemmas over any sequence of operations prove that stacks stay non-empty, that other projects are untouched, and that, unless the project's state is deleted, history before the last snapshot never changes.
- `Projects`: the `Projects` table as a sequence of rows with first-match lookup (`FirstRow`), so duplicate names are kept.
  - The class `ProjectManager` holds the rows and the configured projects directory.
  - Its backward scans and the transcript formatter are loops proved against specification functions.
- `CodeReader`: the directory read over an abstract walk, and the markdown rendering.
  - A walk is the sequence of directories visited, each with its files and the outcome of reading each file.
  - The class `ReadCode` has the nested read loop and the markdown accumulation loop.
- `Coordinator`: `send_message`. It always appends the user's message and launches a run only when `is_agent_completed` is truthy (for the bool-typed flag, `Some(true)`).

Timestamps (`datetime.now()`) are a `now` parameter. JSON encoding and decoding are taken as the identity. The configured projects directory is a constructor argument. Each class is constructed over the persisted table it attaches to.

Three behaviours of the code are worth stating plainly:

- **No state means no run.** `send_message` starts no run for a project with no recorded state: `is_agent_completed` returns `None` for it (devika.py:173). See `Coordinator.ResumeAfterWrites`.
- **`update_latest_state` on a missing row** stores `[state]` (src/state.py:134-138).
- **`create_project` always inserts a row**, even when the name already has one (src/project.py:61-64).

## Model

| member | source | states |
|---|---|---|
| Paths.Lower | src/project.py:266 | `lower()` keeps the length and lower-cases each character in place |
| Paths.ReplaceSpaces | src/project.py:266 | `replace(" ", "-")` keeps the length, turns each space into a hyphen and leaves every other character alone |
| Paths.Slug | src/project.py:266 | the normalised name has the same length, contains no space and no upper-case letter, and is the name with spaces hyphenated and letters lowered, position by position |
| Paths.SlugIdempotent | src/project.py:266 | normalising an already normalised name changes nothing |
| Paths.Join | src/project.py:266 | `os.path.join` ends with the joined part; it keeps the base as a prefix unless the part is absolute, in which case the result is the part |
| AgentStateStore.NewState | src/state.py:37-56 | the default snapshot has null monologue, step and message, all-null browser and terminal sessions, `completed` false, `agent_is_active` true, `token_usage` 0 and the given timestamp |
| AgentStateStore.CurrentState | src/state.py:111-115 | the current state is None exactly when the project has no row, and otherwise its whole stack |
| AgentStateStore.LatestState | src/state.py:152-156 | the latest state is None exactly when the project has no row, and otherwise the last snapshot of its stack |
| AgentStateStore.AgentActive | src/state.py:197-201 | `is_agent_active` is None exactly when there is no latest state, otherwise that snapshot's active flag |
| AgentStateStore.AgentCompleted | src/state.py:242-246 | `is_agent_completed` is None exactly when there is no latest state, otherwise that snapshot's completed flag |
| AgentStateStore.LatestTokenUsage | src/state.py:287-291 | token usage is 0 without a row, otherwise the last snapshot's usage |
| AgentStateStore.Deleted | src/state.py:67-71 | after deletion the project has no row, every other project's stack is unchanged, and stacks stay non-empty |
| AgentStateStore.AddedToCurrent | src/state.py:85-96 | an existing stack grows by exactly one, with the new snapshot last and all earlier ones unchanged; an absent project gets `[s]`; other projects untouched; non-emptiness kept |
| AgentStateStore.LatestUpdated | src/state.py:127-138 | an existing stack keeps its length and its prefix and only index `len-1` becomes the new snapshot; an absent project gets `[s]`; other projects untouched |
| AgentStateStore.Patched | src/state.py:173 | patching the last snapshot changes only the patched field (`agent_is_active`, `completed`, or `token_usage` increased by the amount); every other field is unchanged |
| AgentStateStore.LatestPatched | src/state.py:169-181 | for set_agent_active, set_agent_completed and update_token_usage (also src/state.py:215-227 and 260-273): an existing stack keeps its length and every snapshot before the last; the last is patched; an absent project gets one default snapshot with the field set; other projects untouched |
| AgentStateStore.Seeded | src/state.py:177-178 | a patch on an absent project stores a default snapshot with only the patched field set: `agent_is_active`, `completed` or `token_usage` (assigned, not added); every other field keeps its default |
| AgentStateStore.SeededIsPatchedDefault | src/state.py:268-272 | seeding an absent project (where `token_usage` is assigned, not added) equals patching a fresh default snapshot |
| AgentStateStore.AddThenLatest | src/state.py:85-96 | after `add_to_current_state(p, s)`, `get_latest_state(p)` is `s` |
| AgentStateStore.UpdateThenLatest | src/state.py:127-138 | after `update_latest_state(p, s)`, `get_latest_state(p)` is `s` |
| AgentStateStore.SetFlagThenRead | src/state.py:169-201 | after setting the active or completed flag to `b`, the matching getter returns `b`, with or without a prior row |
| AgentStateStore.TokenUsageAdds | src/state.py:260-273 | `update_token_usage(p, k)` then `get_latest_token_usage(p)` is the old usage plus `k`, the old usage being 0 without a row |
| AgentStateStore.DeleteThenReads | src/state.py:67-71 | after `delete_state(p)` every getter reports an absent project: None, and 0 for token usage |
| AgentStateStore.RunKeepsStacksNonEmpty | src/state.py:85-273 | after any sequence of writes every stored stack is non-empty, so each `[-1]` access succeeds |
| AgentStateStore.RunFramesOtherProjects | src/state.py:85-273 | writes addressed to other projects never create, change or remove project `p`'s stack |
| AgentStateStore.RunKeepsHistory | src/state.py:85-273 | without deleting `p`, its stack never shrinks and every snapshot before the last one stays as it was |
| AgentStateStore.AgentState.constructor | src/state.py:16-28 | the store attaches to the persisted table unchanged; a persisted table whose stacks are all non-empty satisfies the invariant |
| AgentStateStore.AgentState.DeleteState | src/state.py:67-71 | the read-modify-write equals `Deleted` and keeps the invariant |
| AgentStateStore.AgentState.AddToCurrentState | src/state.py:85-96 | the read-modify-write equals `AddedToCurrent` and keeps the invariant |
| AgentStateStore.AgentState.GetCurrentState | src/state.py:111-115 | returns the project's whole stack, or None without a row |
| AgentStateStore.AgentState.UpdateLatestState | src/state.py:127-138 | the read-modify-write equals `LatestUpdated` and keeps the invariant |
| AgentStateStore.AgentState.GetLatestState | src/state.py:152-156 | returns `LatestState`: the last snapshot or None |
| AgentStateStore.AgentState.SetAgentActive | src/state.py:169-181 | the read-modify-write equals `LatestPatched` with the active flag, seeding a default snapshot when absent |
| AgentStateStore.AgentState.IsAgentActive | src/state.py:197-201 | returns `AgentActive` |
| AgentStateStore.AgentState.SetAgentCompleted | src/state.py:215-227 | the read-modify-write equals `LatestPatched` with the completed flag, seeding a default snapshot when absent |
| AgentStateStore.AgentState.IsAgentCompleted | src/state.py:242-246 | returns `AgentCompleted` |
| AgentStateStore.AgentState.UpdateTokenUsage | src/state.py:260-273 | the read-modify-write equals `LatestPatched` adding the amount; without a row the usage is set to the amount |
| AgentStateStore.AgentState.GetLatestTokenUsage | src/state.py:287-291 | returns `LatestTokenUsage` |
| Projects.NewMessage | src/project.py:44-50 | a new message is from the agent, has no text and carries the given timestamp |
| Projects.DevikaMessage | src/project.py:115-117 | the stored agent message has `from_devika` true and the given text unchanged |
| Projects.UserMessage | src/project.py:129-132 | the stored user message has `from_devika` false and the given text unchanged |
| Projects.FirstRow | src/project.py:93 | `.first()` finds the lowest-index row with the name, with no row of that name before it, or None when no row has the name |
| Projects.ProjectList | src/project.py:223-225 | one name per row, in table order, duplicates included |
| Projects.Created | src/project.py:61-64 | creation appends a row with an empty message list after all existing rows, whether or not the name already has a row |
| Projects.DeletedFirst | src/project.py:75-79 | deletion removes exactly the first row with the name and keeps the rows before and after it in order; without one the table is unchanged |
| Projects.MessageAdded | src/project.py:92-103 | the message is appended to the first matching row only (others untouched, table length kept); without a row a new row `[m]` is appended |
| Projects.LastIndexFrom | src/project.py:168-170 | the backward scan finds the last message with the wanted author flag: no later message has it; None when no message has it |
| Projects.LastIsFromUser | src/project.py:185-191 | true exactly when the first matching row exists, its list is non-empty and its last message is not from the agent |
| Projects.FormatMessage | src/project.py:245-249 | the line is `"Devika: "` or `"User: "` followed by the text; its first character tells the author in both directions |
| Projects.CreateGrowsList | src/project.py:61-64 | after `create_project(p)` the project list is the old list with `p` appended |
| Projects.Messages | src/project.py:146-150 | `get_messages` is None exactly when no row has the name, and otherwise the messages of the first matching row |
| Projects.LatestFrom | src/project.py:164-171 | the latest message from the given author is None exactly when there is no row or no message from that author; otherwise it is from that author and no later message is; the same function with the agent flag models `get_latest_message_from_devika` (lines 205-212) |
| Projects.TextOf | src/project.py:247-249 | a message's text renders unchanged, and a missing text renders as `None` |
| Projects.CreateThenMessages | src/project.py:61-64 | creating a fresh name makes `get_messages` return `[]`; creating a name that already has a row changes nothing any lookup sees |
| Projects.AddThenMessages | src/project.py:92-103 | after adding `m`, `get_messages(p)` is the old list (empty without a row) followed by `m` |
| Projects.AddLeavesOthers | src/project.py:92-103 | adding to `p` never changes the messages or latest messages of another name |
| Projects.DeleteUncoversNextRow | src/project.py:75-79 | after `delete_project(p)` the lookup of `p` sees the next row with that name, so a duplicate becomes visible |
| Projects.AddUserThenLatest | src/project.py:129-132 | the user message just added is the latest user message and makes the last message from the user |
| Projects.AddDevikaThenLatest | src/project.py:115-117 | the agent message just added is the latest agent message and makes the last message not from the user |
| Projects.AddAllThenMessages | src/project.py:92-103 | N messages added in turn read back as the old list followed by exactly those N, in order |
| Projects.ProjectPathIgnoresCaseAndSpaces | src/project.py:266 | two names equal up to ASCII case and space-versus-hyphen share one project directory |
| Projects.ProjectManager.constructor | src/project.py:26-30 | the manager keeps the configured projects directory and attaches to the persisted table unchanged |
| Projects.ProjectManager.CreateProject | src/project.py:61-64 | the table becomes `Created` of the old table |
| Projects.ProjectManager.DeleteProject | src/project.py:75-79 | the table becomes `DeletedFirst` of the old table |
| Projects.ProjectManager.AddMessageToProject | src/project.py:92-103 | the table becomes `MessageAdded` of the old table |
| Projects.ProjectManager.AddMessageFromDevika | src/project.py:115-117 | adds the agent message with the given text |
| Projects.ProjectManager.AddMessageFromUser | src/project.py:129-132 | adds the user message with the given text |
| Projects.ProjectManager.GetMessages | src/project.py:146-150 | returns the first matching row's messages, or None (not `[]`) without a row |
| Projects.ProjectManager.GetLatestMessageFromUser | src/project.py:164-171 | the backward loop returns the last user message of the first matching row, or None when there is none or no row |
| Projects.ProjectManager.ValidateLastMessageIsFromUser | src/project.py:185-191 | returns `LastIsFromUser`: false for no row or an empty list, otherwise whether the last message is from the user |
| Projects.ProjectManager.GetLatestMessageFromDevika | src/project.py:205-212 | the backward loop returns the last agent message of the first matching row, or None |
| Projects.ProjectManager.GetProjectList | src/project.py:223-225 | returns the name of every row in table order |
| Projects.ProjectManager.GetAllMessagesFormatted | src/project.py:239-251 | the loop returns one formatted line per message, same length and order as the list; `[]` without a row |
| Projects.ProjectManager.GetProjectPath | src/project.py:266 | the project path ends with the normalised name |
| Projects.ProjectManager.GetZipPath | src/project.py:299 | the zip path is the project path followed by `.zip` |
| Projects.ProjectManager.ProjectToZip | src/project.py:278-287 | `project_to_zip` returns exactly the path `get_zip_path` reports |
| CodeReader.DirectoryPath | src/filesystem/read_code.py:19 | the reader's directory ends with the normalised project name |
| CodeReader.DirectoryPathIsProjectPath | src/filesystem/read_code.py:19 | the reader's directory is the same path the project manager computes for the name |
| CodeReader.ReadCode.constructor | src/filesystem/read_code.py:17-19 | the directory is the projects directory joined with the normalised project name |
| CodeReader.Entry | src/filesystem/read_code.py:33-38 | a file that was read gives exactly one entry, its joined path and its content; a file whose open or read fails gives none |
| CodeReader.ReadableIn | src/filesystem/read_code.py:32-38 | one directory contributes at most one entry per file |
| CodeReader.ReadableInAllRead | src/filesystem/read_code.py:32-38 | when every file of a directory is read, entry `i` is file `i`'s joined path and content |
| CodeReader.ReadableInNoneRead | src/filesystem/read_code.py:32-38 | when no file of a directory can be read, it contributes nothing |
| CodeReader.Readable | src/filesystem/read_code.py:30-40 | the code set has at most one entry per visited file |
| CodeReader.ReadableAllRead | src/filesystem/read_code.py:30-40 | when every read succeeds, the code set has exactly one entry per visited file |
| CodeReader.ReadableNoneRead | src/filesystem/read_code.py:30-40 | when every read fails, the code set is empty and nothing fails |
| CodeReader.ReadableAppend | src/filesystem/read_code.py:31-38 | the code set follows walk order: reading two parts of a walk and concatenating gives the code set of the whole |
| CodeReader.ReadCode.ReadDirectory | src/filesystem/read_code.py:30-40 | for a walk that starts at the reader's directory, the nested loop returns the code set of the walk: each readable file's entry in walk order, failed reads skipped |
| CodeReader.Block | src/filesystem/read_code.py:55-57 | one entry's block is 22 characters of framing plus its file name and code |
| CodeReader.Markdown | src/filesystem/read_code.py:53-57 | every entry adds at least 22 characters, so the markdown is empty exactly for an empty code set and otherwise starts with a `### ` heading |
| CodeReader.MarkdownSingle | src/filesystem/read_code.py:53-57 | an empty code set renders as `""`, a single entry as exactly its block |
| CodeReader.MarkdownAppend | src/filesystem/read_code.py:54-57 | rendering distributes over concatenation: `md(xs + ys) == md(xs) + md(ys)` |
| CodeReader.MarkdownLength | src/filesystem/read_code.py:54-57 | the markdown's length is the sum of the block lengths |
| CodeReader.ReadCode.CodeSetToMarkdown | src/filesystem/read_code.py:52-58 | for a walk that starts at the reader's directory, the accumulation loop returns the markdown of the code set read from the walk |
| Coordinator.ResumeAllowed | devika.py:173 | a follow-up run is allowed exactly when the project has a row and its last snapshot is completed |
| Coordinator.ResumeAfterWrites | devika.py:173 | no state means no run; completing the last snapshot allows a run; clearing the flag or deleting the state forbids it |
| Coordinator.SendMessage | devika.py:168-177 | the user's message is always appended to the log, and a run is launched exactly when `ResumeAllowed` holds |

## Left out

- SQL sessions, the engine and table creation are left out. Each table is one value, and each operation is one atomic step.
- JSON serialisation is taken to round-trip exactly. Snapshots and messages are typed records with the fields `new_state()` and `new_message()` create. The source would accept any dict passed to `add_to_current_state`, `update_latest_state` or `add_message_to_project` (src/project.py:81). On a message dict without `"from_devika"`, `get_latest_message_from_user`, `validate_last_message_is_from_user`, `get_latest_message_from_devika` and `get_all_messages_formatted` raise `KeyError` (src/project.py:169, 190, 210, 246); the model has no such message.
- `datetime.now()` and its formatting are left out. The timestamp is the `now` parameter.
- Concurrency is not modelled. The model is sequential, so it cannot show the lost updates that concurrent read-modify-write sessions cause, or the background threads that `send_message` and the run endpoint start.
- The `agent_state` table is a map. Rows are only inserted for a project that has none, so sequential use never produces duplicate rows there. A table edited by other means could hold duplicates, and the model does not cover that.
- The invariant rules out an empty state stack. The model has no case for the `IndexError` that `[-1]` would raise on a hand-edited empty stack.
- `Paths.Lower` covers ASCII only. Python's Unicode `str.lower()` is not modelled, including its length-changing cases.
- `Projects.ProjectManager.ProjectToZip` models only the returned path. Walking the directory and writing the zip archive are file-system I/O.
- `CodeReader.ReadCode.ReadDirectory` takes the walk and the read outcomes as data. `os.walk`, `open` and `read` are file-system I/O.
- The debugging `print(agent_state)` in `update_token_usage` is left out.
- The configuration singleton (src/config.py) is not part of this model. The projects directory is a constructor argument.
- Browser snapshots (src/browser/browser.py:62-66) are not modelled separately. They are a call to `add_to_current_state`, which `AgentStateStore.AgentState.AddToCurrentState` covers.
- The other Flask routes, search, logging and PDF generation are not part of this model.
