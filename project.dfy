/**
 * The project message log of src/project.py. The `Projects` table is a
 * sequence of rows, each a project name and its message list. Creating a
 * project always inserts a row, and every lookup takes the FIRST row with the
 * name, so one name can have several rows of which only the first is seen.
 * The pure functions below give the table after each write and what each read
 * returns; the class ProjectManager performs the operations as the source does.
 */
module Projects {
  import opened Wrappers
  import Paths

  /** A conversation turn; `text` is None for a bare `new_message()` or a `send_message` request without a message. */
  datatype Message = Message(fromDevika: bool, text: Option<string>, timestamp: string)

  datatype ProjectRow = ProjectRow(project: string, messages: seq<Message>)

  /** The `Projects` table, in insertion order. */
  type Table = seq<ProjectRow>

  /** `new_message()`: an agent message without text, stamped with the time `now`. */
  function NewMessage(now: string): (m: Message)
    ensures m.fromDevika && m.text == None && m.timestamp == now
  {
    Message(true, None, now)
  }

  /** The message `add_message_from_devika` stores: agent-authored, text unchanged. */
  function DevikaMessage(text: string, now: string): (m: Message)
    ensures m.fromDevika && m.text == Some(text) && m.timestamp == now
  {
    NewMessage(now).(text := Some(text))
  }

  /** The message `add_message_from_user` stores: user-authored, text unchanged. */
  function UserMessage(text: string, now: string): (m: Message)
    ensures !m.fromDevika && m.text == Some(text) && m.timestamp == now
  {
    NewMessage(now).(text := Some(text), fromDevika := false)
  }

  // ---------------------------------------------------------------------
  // First-match lookup (`.filter(Projects.project == project).first()`)
  // ---------------------------------------------------------------------

  /** The index of the first row named `p`, or None when no row has that name. */
  function FirstRow(rows: Table, p: string): (r: Option<nat>)
    ensures r.Some? ==> r.value < |rows| && rows[r.value].project == p
    ensures r.Some? ==> forall j :: 0 <= j < r.value ==> rows[j].project != p
    ensures r.None? ==> forall j :: 0 <= j < |rows| ==> rows[j].project != p
  {
    if rows == [] then None
    else if rows[0].project == p then Some(0)
    else match FirstRow(rows[1..], p)
      case None => None
      case Some(i) => Some(i + 1)
  }

  /** The first-match index is determined by the names alone. */
  lemma FirstRowIs(rows: Table, p: string, i: nat)
    requires i < |rows| && rows[i].project == p
    requires forall j :: 0 <= j < i ==> rows[j].project != p
    ensures FirstRow(rows, p) == Some(i)
  {
  }

  lemma NoRowIs(rows: Table, p: string)
    requires forall j :: 0 <= j < |rows| ==> rows[j].project != p
    ensures FirstRow(rows, p) == None
  {
  }

  /** `get_messages`: the first matching row's messages, None (not []) without a row. */
  function Messages(rows: Table, p: string): (r: Option<seq<Message>>)
    ensures r.None? <==> forall j :: 0 <= j < |rows| ==> rows[j].project != p
    ensures r.Some? ==> FirstRow(rows, p).Some? && r.value == rows[FirstRow(rows, p).value].messages
  {
    match FirstRow(rows, p)
    case None => None
    case Some(i) => Some(rows[i].messages)
  }

  /** `get_project_list`: the name of every row, duplicates included, in table order. */
  function ProjectList(rows: Table): (r: seq<string>)
    ensures |r| == |rows|
    ensures forall i :: 0 <= i < |rows| ==> r[i] == rows[i].project
  {
    seq(|rows|, i requires 0 <= i < |rows| => rows[i].project)
  }

  // ---------------------------------------------------------------------
  // Writes: the table after each operation
  // ---------------------------------------------------------------------

  /** `create_project`: a new row with no messages is appended, whatever rows exist. */
  function Created(rows: Table, p: string): (r: Table)
    ensures |r| == |rows| + 1 && r[..|rows|] == rows && r[|rows|] == ProjectRow(p, [])
  {
    rows + [ProjectRow(p, [])]
  }

  /** `delete_project`: only the first row named `p` is removed; without one nothing changes. */
  function DeletedFirst(rows: Table, p: string): (r: Table)
    ensures FirstRow(rows, p).None? ==> r == rows
    ensures FirstRow(rows, p).Some? ==> |r| == |rows| - 1
    ensures FirstRow(rows, p).Some? ==>
      var i := FirstRow(rows, p).value;
      r[..i] == rows[..i] && r[i..] == rows[i + 1..]
  {
    match FirstRow(rows, p)
    case None => rows
    case Some(i) => rows[..i] + rows[i + 1..]
  }

  /**
   * `add_message_to_project`: `m` is appended to the messages of the first row
   * named `p`, every other row untouched; without such a row a new row `[m]`
   * is appended to the table.
   */
  function MessageAdded(rows: Table, p: string, m: Message): (r: Table)
    ensures FirstRow(rows, p).None? ==> r == rows + [ProjectRow(p, [m])]
    ensures FirstRow(rows, p).Some? ==>
      var i := FirstRow(rows, p).value;
      |r| == |rows| && r[i] == ProjectRow(p, rows[i].messages + [m]) &&
      forall j :: 0 <= j < |rows| && j != i ==> r[j] == rows[j]
  {
    match FirstRow(rows, p)
    case None => rows + [ProjectRow(p, [m])]
    case Some(i) => rows[i := ProjectRow(p, rows[i].messages + [m])]
  }

  // ---------------------------------------------------------------------
  // Reads of the message list
  // ---------------------------------------------------------------------

  /** The index of the last message whose author flag is `fromDevika`, scanning from the tail. */
  function LastIndexFrom(ms: seq<Message>, fromDevika: bool): (r: Option<nat>)
    ensures r.Some? ==> r.value < |ms| && ms[r.value].fromDevika == fromDevika
    ensures r.Some? ==> forall j :: r.value < j < |ms| ==> ms[j].fromDevika != fromDevika
    ensures r.None? ==> forall j :: 0 <= j < |ms| ==> ms[j].fromDevika != fromDevika
  {
    if ms == [] then None
    else if ms[|ms| - 1].fromDevika == fromDevika then Some(|ms| - 1)
    else LastIndexFrom(ms[..|ms| - 1], fromDevika)
  }

  /**
   * `get_latest_message_from_user` (`fromDevika` false) and
   * `get_latest_message_from_devika` (true): the last message of the first
   * matching row with that author, or None.
   */
  function LatestFrom(rows: Table, p: string, fromDevika: bool): (r: Option<Message>)
    ensures r.Some? ==> r.value.fromDevika == fromDevika
    ensures r.None? <==> (Messages(rows, p).None? ||
      forall j :: 0 <= j < |Messages(rows, p).value| ==> Messages(rows, p).value[j].fromDevika != fromDevika)
    ensures r.Some? ==>
      var ms := Messages(rows, p).value;
      exists i :: 0 <= i < |ms| && ms[i] == r.value &&
        forall j :: i < j < |ms| ==> ms[j].fromDevika != fromDevika
  {
    match Messages(rows, p)
    case None => None
    case Some(ms) =>
      match LastIndexFrom(ms, fromDevika)
      case None => None
      case Some(i) => Some(ms[i])
  }

  /** `validate_last_message_is_from_user`: false for an absent project or an empty list. */
  function LastIsFromUser(rows: Table, p: string): (r: bool)
    ensures r <==> Messages(rows, p).Some? && |Messages(rows, p).value| > 0 &&
                   !Messages(rows, p).value[|Messages(rows, p).value| - 1].fromDevika
  {
    match Messages(rows, p)
    case None => false
    case Some(ms) => ms != [] && !ms[|ms| - 1].fromDevika
  }

  /** Python's rendering of the text inside an f-string. */
  function TextOf(text: Option<string>): (r: string)
    ensures text.Some? ==> r == text.value
    ensures text.None? ==> r == "None"
  {
    match text
    case Some(t) => t
    case None => "None"
  }

  /**
   * One transcript line: the author label, then the text unchanged. The label
   * alone tells who wrote the message.
   */
  function FormatMessage(m: Message): (r: string)
    ensures |r| > 0 && (r[0] == 'D' <==> m.fromDevika)
    ensures m.fromDevika ==> r == "Devika: " + TextOf(m.text)
    ensures !m.fromDevika ==> r == "User: " + TextOf(m.text)
  {
    (if m.fromDevika then "Devika: " else "User: ") + TextOf(m.text)
  }

  // ---------------------------------------------------------------------
  // What a write followed by a read observes
  // ---------------------------------------------------------------------

  /** After `create_project(p)`, the project list grows by exactly `p` at the end. */
  lemma CreateGrowsList(rows: Table, p: string)
    ensures ProjectList(Created(rows, p)) == ProjectList(rows) + [p]
  {
  }

  /**
   * `create_project(p)` on a name that already has a row adds a row no lookup
   * will ever see; on a fresh name the lookup finds the empty message list.
   */
  lemma CreateThenMessages(rows: Table, p: string)
    ensures Messages(rows, p).Some? ==> Messages(Created(rows, p), p) == Messages(rows, p)
    ensures Messages(rows, p).None? ==> Messages(Created(rows, p), p) == Some([])
  {
    var r := Created(rows, p);
    match FirstRow(rows, p)
    case Some(i) =>
      FirstRowIs(r, p, i);
    case None =>
      FirstRowIs(r, p, |rows|);
  }

  /** `add_message_to_project(p, m)` then `get_messages(p)` ends with `m` after the old list. */
  lemma AddThenMessages(rows: Table, p: string, m: Message)
    ensures Messages(MessageAdded(rows, p, m), p) == Some(Messages(rows, p).GetOr([]) + [m])
  {
    var r := MessageAdded(rows, p, m);
    match FirstRow(rows, p)
    case Some(i) =>
      FirstRowIs(r, p, i);
    case None =>
      assert r == rows + [ProjectRow(p, [m])];
      FirstRowIs(r, p, |rows|);
      assert Messages(r, p) == Some([m]);
      assert Messages(rows, p).GetOr([]) + [m] == [m];
  }

  /** Adding messages to `p` never changes what a lookup of another name sees. */
  lemma AddLeavesOthers(rows: Table, p: string, q: string, m: Message)
    requires q != p
    ensures Messages(MessageAdded(rows, p, m), q) == Messages(rows, q)
    ensures LatestFrom(MessageAdded(rows, p, m), q, true) == LatestFrom(rows, q, true)
    ensures LatestFrom(MessageAdded(rows, p, m), q, false) == LatestFrom(rows, q, false)
  {
    var r := MessageAdded(rows, p, m);
    match FirstRow(rows, q)
    case Some(i) =>
      FirstRowIs(r, q, i);
    case None =>
      NoRowIs(r, q);
  }

  /**
   * After `delete_project(p)` the lookup of `p` sees the next row with that
   * name, if there is one: a duplicate row becomes the visible one.
   */
  lemma DeleteUncoversNextRow(rows: Table, p: string)
    requires FirstRow(rows, p).Some?
    ensures Messages(DeletedFirst(rows, p), p) == Messages(rows[FirstRow(rows, p).value + 1..], p)
  {
    var i := FirstRow(rows, p).value;
    var r := DeletedFirst(rows, p);
    var rest := rows[i + 1..];
    assert r == rows[..i] + rest;
    match FirstRow(rest, p)
    case Some(k) =>
      forall j | 0 <= j < i + k
        ensures r[j].project != p
      {
        if j >= i {
          assert r[j] == rest[j - i];
        }
      }
      assert r[i + k] == rest[k];
      FirstRowIs(r, p, i + k);
    case None =>
      forall j | 0 <= j < |r|
        ensures r[j].project != p
      {
        if j >= i {
          assert r[j] == rest[j - i];
        }
      }
      NoRowIs(r, p);
  }

  /** The message just added by the user is the latest user message, and the last one. */
  lemma AddUserThenLatest(rows: Table, p: string, text: string, now: string)
    ensures LatestFrom(MessageAdded(rows, p, UserMessage(text, now)), p, false) == Some(UserMessage(text, now))
    ensures LastIsFromUser(MessageAdded(rows, p, UserMessage(text, now)), p)
  {
    AddThenMessages(rows, p, UserMessage(text, now));
  }

  /** The message just added by the agent is the latest agent message, and the last one. */
  lemma AddDevikaThenLatest(rows: Table, p: string, text: string, now: string)
    ensures LatestFrom(MessageAdded(rows, p, DevikaMessage(text, now)), p, true) == Some(DevikaMessage(text, now))
    ensures !LastIsFromUser(MessageAdded(rows, p, DevikaMessage(text, now)), p)
  {
    AddThenMessages(rows, p, DevikaMessage(text, now));
  }

  /** Adding each of `ms` in turn. */
  function AddAll(rows: Table, p: string, ms: seq<Message>): Table
    decreases |ms|
  {
    if ms == [] then rows else AddAll(MessageAdded(rows, p, ms[0]), p, ms[1..])
  }

  /** Appending the head of `ms` and then the rest appends all of `ms`. */
  lemma AppendHead(xs: seq<Message>, ms: seq<Message>)
    requires ms != []
    ensures (xs + [ms[0]]) + ms[1..] == xs + ms
  {
    assert ms == [ms[0]] + ms[1..];
  }

  /** N appends to a project read back as exactly those N messages, in append order. */
  lemma {:induction false} AddAllThenMessages(rows: Table, p: string, ms: seq<Message>)
    requires ms != [] || Messages(rows, p).Some?
    ensures Messages(AddAll(rows, p, ms), p) == Some(Messages(rows, p).GetOr([]) + ms)
    decreases |ms|
  {
    if ms != [] {
      var rows' := MessageAdded(rows, p, ms[0]);
      AddThenMessages(rows, p, ms[0]);
      AddAllThenMessages(rows', p, ms[1..]);
      AppendHead(Messages(rows, p).GetOr([]), ms);
    } else {
      assert Messages(rows, p).value + ms == Messages(rows, p).value;
    }
  }

  // ---------------------------------------------------------------------
  // The table as the source updates it
  // ---------------------------------------------------------------------

  class ProjectManager {
    /** The configured projects directory. */
    const projectsDir: string
    var rows: Table

    /** Attaches to the persisted `Projects` table under the given projects directory. */
    constructor (projectsDir: string, persisted: Table)
      ensures this.projectsDir == projectsDir && rows == persisted
    {
      this.projectsDir := projectsDir;
      rows := persisted;
    }

    method CreateProject(project: string)
      modifies this
      ensures rows == Created(old(rows), project)
    {
      rows := rows + [ProjectRow(project, [])];
    }

    method DeleteProject(project: string)
      modifies this
      ensures rows == DeletedFirst(old(rows), project)
    {
      var projectState := FirstRow(rows, project);
      if projectState.Some? {
        var i := projectState.value;
        rows := rows[..i] + rows[i + 1..];
      }
    }

    method AddMessageToProject(project: string, message: Message)
      modifies this
      ensures rows == MessageAdded(old(rows), project, message)
    {
      var projectState := FirstRow(rows, project);
      if projectState.Some? {
        var i := projectState.value;
        var messageStack := rows[i].messages;
        messageStack := messageStack + [message];
        rows := rows[i := ProjectRow(project, messageStack)];
      } else {
        rows := rows + [ProjectRow(project, [message])];
      }
    }

    method AddMessageFromDevika(project: string, message: string, now: string)
      modifies this
      ensures rows == MessageAdded(old(rows), project, DevikaMessage(message, now))
    {
      var newMessage := NewMessage(now);
      newMessage := newMessage.(text := Some(message));
      AddMessageToProject(project, newMessage);
    }

    method AddMessageFromUser(project: string, message: string, now: string)
      modifies this
      ensures rows == MessageAdded(old(rows), project, UserMessage(message, now))
    {
      var newMessage := NewMessage(now);
      newMessage := newMessage.(text := Some(message));
      newMessage := newMessage.(fromDevika := false);
      AddMessageToProject(project, newMessage);
    }

    method GetMessages(project: string) returns (r: Option<seq<Message>>)
      ensures r == Messages(rows, project)
    {
      var projectState := FirstRow(rows, project);
      if projectState.Some? {
        return Some(rows[projectState.value].messages);
      }
      return None;
    }

    /** Scans the message list backwards and returns the first message from the user. */
    method GetLatestMessageFromUser(project: string) returns (r: Option<Message>)
      ensures r == LatestFrom(rows, project, false)
    {
      var projectState := FirstRow(rows, project);
      if projectState.Some? {
        var messageStack := rows[projectState.value].messages;
        var k := |messageStack|;
        while k > 0
          invariant 0 <= k <= |messageStack|
          invariant forall j :: k <= j < |messageStack| ==> messageStack[j].fromDevika
        {
          if !messageStack[k - 1].fromDevika {
            return Some(messageStack[k - 1]);
          }
          k := k - 1;
        }
      }
      return None;
    }

    method ValidateLastMessageIsFromUser(project: string) returns (r: bool)
      ensures r == LastIsFromUser(rows, project)
    {
      var projectState := FirstRow(rows, project);
      if projectState.Some? {
        var messageStack := rows[projectState.value].messages;
        if messageStack != [] {
          return !messageStack[|messageStack| - 1].fromDevika;
        }
      }
      return false;
    }

    /** Scans the message list backwards and returns the first message from the agent. */
    method GetLatestMessageFromDevika(project: string) returns (r: Option<Message>)
      ensures r == LatestFrom(rows, project, true)
    {
      var projectState := FirstRow(rows, project);
      if projectState.Some? {
        var messageStack := rows[projectState.value].messages;
        var k := |messageStack|;
        while k > 0
          invariant 0 <= k <= |messageStack|
          invariant forall j :: k <= j < |messageStack| ==> !messageStack[j].fromDevika
        {
          if messageStack[k - 1].fromDevika {
            return Some(messageStack[k - 1]);
          }
          k := k - 1;
        }
      }
      return None;
    }

    method GetProjectList() returns (r: seq<string>)
      ensures r == ProjectList(rows)
    {
      var table := rows;
      r := seq(|table|, i requires 0 <= i < |table| => table[i].project);
    }

    /**
     * The transcript of the first matching row: one line per message, in
     * order, labelled by author; [] when there is no row.
     */
    method GetAllMessagesFormatted(project: string) returns (formattedMessages: seq<string>)
      ensures Messages(rows, project).None? ==> formattedMessages == []
      ensures Messages(rows, project).Some? ==>
        var ms := Messages(rows, project).value;
        |formattedMessages| == |ms| &&
        forall i :: 0 <= i < |ms| ==> formattedMessages[i] == FormatMessage(ms[i])
    {
      formattedMessages := [];
      var projectState := FirstRow(rows, project);
      if projectState.Some? {
        var messageStack := rows[projectState.value].messages;
        var k := 0;
        while k < |messageStack|
          invariant 0 <= k <= |messageStack|
          invariant |formattedMessages| == k
          invariant forall i :: 0 <= i < k ==> formattedMessages[i] == FormatMessage(messageStack[i])
        {
          var message := messageStack[k];
          if message.fromDevika {
            formattedMessages := formattedMessages + ["Devika: " + TextOf(message.text)];
          } else {
            formattedMessages := formattedMessages + ["User: " + TextOf(message.text)];
          }
          k := k + 1;
        }
      }
    }

    /** The project's directory: the normalised name joined onto the projects directory. */
    function GetProjectPath(project: string): (r: string)
      ensures var slug := Paths.Slug(project);
        |slug| <= |r| && r[|r| - |slug|..] == slug
    {
      Paths.Join(projectsDir, Paths.Slug(project))
    }

    /** The archive path: the project's directory with ".zip" appended. */
    function GetZipPath(project: string): (r: string)
      ensures |r| == |GetProjectPath(project)| + 4
      ensures r[..|r| - 4] == GetProjectPath(project) && r[|r| - 4..] == ".zip"
    {
      GetProjectPath(project) + ".zip"
    }

    /** `project_to_zip` returns the same path `get_zip_path` reports; the archive itself is not modelled. */
    method ProjectToZip(project: string) returns (zipPath: string)
      ensures zipPath == GetZipPath(project)
    {
      var projectPath := GetProjectPath(project);
      zipPath := projectPath + ".zip";
    }
  }

  /** Two names that differ only in ASCII case or in spaces versus hyphens share one directory. */
  lemma ProjectPathIgnoresCaseAndSpaces(pm: ProjectManager, a: string, b: string)
    requires |a| == |b|
    requires forall i :: 0 <= i < |a| ==>
      (if a[i] == ' ' then '-' else Paths.LowerChar(a[i])) == (if b[i] == ' ' then '-' else Paths.LowerChar(b[i]))
    ensures pm.GetProjectPath(a) == pm.GetProjectPath(b)
  {
    assert Paths.Slug(a) == Paths.Slug(b);
  }
}
