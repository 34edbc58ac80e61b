/** The client and the server of upd-TaskManager talking to each other: a
    command the client sends is the command the server parses, and a reply
    the server sends is the event the client emits. Both sides end every
    message with `'\n'` and strip what they read, so the results hold for
    texts with no newline inside and no whitespace at either end, which is
    what `json.dumps` produces. */
module Protocol {
  import opened Options
  import opened Text
  import opened TaskServer
  import opened TaskClient

  /** A JSON text as `json.dumps` writes it: on one line, and not ending in
      whitespace. */
  predicate CleanText(p: string) {
    '\n' !in p && (p == "" || !IsSpace(p[|p| - 1]))
  }

  /** A tag such as `ADD:` or `TASKS:board:` followed by a clean text has
      no whitespace at either end. */
  lemma TaggedLine(head: string, tail: string)
    requires |head| > 0 && !IsSpace(head[0]) && head[|head| - 1] == ':'
    requires CleanText(tail)
    ensures NoSurroundingSpace(head + tail)
  {
    var s := head + tail;
    assert s[0] == head[0];
    if tail == "" {
      assert s == head;
    } else {
      assert s[|s| - 1] == tail[|tail| - 1];
    }
  }

  /** What the server reads from one chunk holding a line the client sent:
      the line itself, so the command it parses is the line's. */
  lemma ServerReadsSent(m: string, c: Command)
    requires NoSurroundingSpace(m) && ParseCommand(m) == c
    ensures Send(true, false, m).wire == Some(m + "\n")
    ensures ParseCommand(Strip(Send(true, false, m).wire.value)) == c
    ensures c.name != "" ==> Strip(Send(true, false, m).wire.value) != ""
  {
    StripTerminated(m);
  }

  /** `add_task` on a board without `:` reaches the server as the same
      `ADD` command with the JSON text as payload, provided the server's one
      `recv(1024)` returns the whole line, that is, the UTF-8 encoding of the
      line is at most 1024 bytes. A longer line is cut, and the server parses
      each piece as a command of its own. */
  lemma AddTaskReachesServer(board: string, taskJson: string)
    requires ':' !in board && CleanText(taskJson)
    ensures var wire := Send(true, false, AddTaskCommand(board, taskJson)).wire.value;
            ParseCommand(Strip(wire)) == Command("ADD", board, Some(taskJson))
  {
    var m := AddTaskCommand(board, taskJson);
    var head := "ADD" + ":" + board + ":";
    NamesColonFree();
    TaggedLine(head, taskJson);
    assert m == head + taskJson;
    ServerReadsSent(m, Command("ADD", board, Some(taskJson)));
  }

  /** `update_tasks` likewise reaches the server as the same `UPDATE`,
      provided the line fits one `recv(1024)`. `update_tasks` sends the
      board's whole list, so this bound is reached by ordinary boards. */
  lemma UpdateTasksReachesServer(board: string, tasksJson: string)
    requires ':' !in board && CleanText(tasksJson)
    ensures var wire := Send(true, false, UpdateTasksCommand(board, tasksJson)).wire.value;
            ParseCommand(Strip(wire)) == Command("UPDATE", board, Some(tasksJson))
  {
    var m := UpdateTasksCommand(board, tasksJson);
    var head := "UPDATE" + ":" + board + ":";
    NamesColonFree();
    TaggedLine(head, tasksJson);
    assert m == head + tasksJson;
    ServerReadsSent(m, Command("UPDATE", board, Some(tasksJson)));
  }

  /** `get_tasks` reaches the server as `GET_TASKS` on the board that has
      become the client's current one. */
  lemma GetTasksReachesServer(current: string, boardName: Option<string>)
    requires var b := GetTasksCommand(current, boardName).0; ':' !in b && CleanText(b)
    ensures var r := GetTasksCommand(current, boardName);
            ParseCommand(Strip(Send(true, false, r.1).wire.value)) == Command("GET_TASKS", r.0, None)
  {
    var r := GetTasksCommand(current, boardName);
    var head := "GET_TASKS" + ":";
    TaggedLine(head, r.0);
    assert r.1 == head + r.0;
    ServerReadsSent(r.1, Command("GET_TASKS", r.0, None));
  }

  /** A board created through the checked `create_new_board` reaches the
      server as `GET_TASKS` on exactly that board, whatever the dialog's
      text was. */
  lemma CreatedBoardReachesServer(current: string, input: string, ok: bool)
    requires CreateNewBoardChecked(current, input, ok).Some?
    ensures var r := CreateNewBoardChecked(current, input, ok).value;
            ParseCommand(Strip(Send(true, false, r.1).wire.value)) == Command("GET_TASKS", Strip(input), None)
  {
    var name := Strip(input);
    assert NoSurroundingSpace(name) && name != "" && ':' !in name;
    NamedBoardReachesServer(current, name);
  }

  /** `get_tasks(name)` on a non-empty name without `:` and without
      surrounding whitespace reaches the server as `GET_TASKS` on it. */
  lemma NamedBoardReachesServer(current: string, name: string)
    requires name != "" && NoSurroundingSpace(name) && ':' !in name
    ensures var r := GetTasksCommand(current, Some(name));
            ParseCommand(Strip(Send(true, false, r.1).wire.value)) == Command("GET_TASKS", name, None)
  {
    var r := GetTasksCommand(current, Some(name));
    GetTasksText(current, Some(name));
    TaggedName("GET_TASKS" + ":", name);
    ServerReadsSent(r.1, Command("GET_TASKS", name, None));
  }

  /** A tag followed by a non-empty name without surrounding whitespace has
      no whitespace at either end. */
  lemma TaggedName(head: string, name: string)
    requires |head| > 0 && !IsSpace(head[0])
    requires name != "" && NoSurroundingSpace(name)
    ensures NoSurroundingSpace(head + name)
  {
    var s := head + name;
    assert s[0] == head[0] && s[|s| - 1] == name[|name| - 1];
  }

  /** An `add_task` the server can decode, sent on a board without `:`,
      appends exactly that task to the board on the server, provided the
      line fits one `recv(1024)` (at most 1024 bytes of UTF-8). */
  lemma AddTaskEndToEnd<T>(codec: Codec<T>, srv: Server<T>, s: SocketId, current: Option<string>,
                           board: string, taskJson: string, failed: set<SocketId>)
    requires ValidStore(srv.store)
    requires ':' !in board && CleanText(taskJson) && taskJson != ""
    requires codec.task(taskJson).Some?
    ensures var wire := Send(true, false, AddTaskCommand(board, taskJson)).wire.value;
            var o := HandleChunk(codec, srv, s, current, wire, failed);
            && TasksOf(o.server.store, board) == TasksOf(srv.store, board) + [codec.task(taskJson).value]
            && o.current == Some(board)
  {
    var wire := Send(true, false, AddTaskCommand(board, taskJson)).wire.value;
    var c := Command("ADD", board, Some(taskJson));
    AddTaskReachesServer(board, taskJson);
    assert Strip(wire) != "" by {
      assert ParseCommand(Strip(wire)).name != "";
    }
    assert HandleChunk(codec, srv, s, current, wire, failed) == Step(codec, srv, s, current, c, failed);
    AddAppendsOne(codec, srv, s, current, c, failed);
  }

  /** `get_boards` reaches the server as `GET_BOARDS` on a board named
      `ALL`. */
  lemma GetBoardsReachesServer()
    ensures var wire := Send(true, false, GetBoardsCommand()).wire.value;
            Strip(wire) != "" && ParseCommand(Strip(wire)) == Command("GET_BOARDS", "ALL", None)
  {
    GetBoardsClean();
    ServerReadsSent(GetBoardsCommand(), Command("GET_BOARDS", "ALL", None));
  }

  lemma GetBoardsClean()
    ensures NoSurroundingSpace(GetBoardsCommand())
  {
    TaggedLine("GET_BOARDS" + ":", "ALL");
  }

  /** `get_boards` sends `GET_BOARDS:ALL`, and the server creates a board
      for every board name it is given, so the first such request on a
      server without an `ALL` board adds a board named `ALL`. */
  lemma GetBoardsCreatesAllBoard<T>(codec: Codec<T>, srv: Server<T>, s: SocketId, current: Option<string>,
                                    failed: set<SocketId>)
    requires ValidStore(srv.store) && "ALL" !in srv.store.tasks
    ensures var wire := Send(true, false, GetBoardsCommand()).wire.value;
            var o := HandleChunk(codec, srv, s, current, wire, failed);
            && o.server.store.boards == srv.store.boards + ["ALL"]
            && o.server.store.tasks["ALL"] == []
            && o.sent == (if s in failed then [] else [Delivery(s, BoardsReply(srv.store.boards + ["ALL"]))])
  {
    var wire := Send(true, false, GetBoardsCommand()).wire.value;
    var c := Command("GET_BOARDS", "ALL", None);
    GetBoardsReachesServer();
    assert HandleChunk(codec, srv, s, current, wire, failed) == Step(codec, srv, s, current, c, failed);
    GetBoardsReplies(codec, srv, s, current, c, failed);
  }

  /** What the client reads from a line the server sent: that one line,
      unchanged by stripping. */
  lemma ClientReadsLine(line: string)
    requires NoSurroundingSpace(line) && '\n' !in line
    ensures Frame(line + "\n") == Framed([line], "")
    ensures Strip(line) == line
  {
    StripKeeps(line);
    SendFrames(line);
  }

  /** A `TASKS` reply the server sends, on a board without `:` and
      encoded cleanly, is framed by the client as one line and emitted as
      the same board and tasks, provided decoding inverts encoding. */
  lemma TasksReplyReachesClient<T, B>(encodeTasks: seq<T> -> string, decodeTasks: string -> Option<seq<T>>,
                                      encodeBoards: seq<string> -> string, decodeBoards: string -> Option<B>,
                                      board: string, tasks: seq<T>)
    requires ':' !in board && '\n' !in board
    requires CleanText(encodeTasks(tasks)) && decodeTasks(encodeTasks(tasks)) == Some(tasks)
    ensures var line := RenderReply(TasksReply(board, tasks), encodeTasks, encodeBoards);
            && Frame(line + "\n") == Framed([line], "")
            && ProcessMessage(decodeTasks, decodeBoards, Strip(line)) == Some(TasksUpdated(tasks, board))
  {
    var line := RenderReply(TasksReply(board, tasks), encodeTasks, encodeBoards);
    var head := "TASKS:" + board + ":";
    assert line == head + encodeTasks(tasks);
    TaggedLine(head, encodeTasks(tasks));
    assert '\n' !in head;
    ClientReadsLine(line);
    ProcessTasksMessage(decodeTasks, decodeBoards, board, encodeTasks(tasks));
  }

  /** A `BOARDS` reply reaches the client as the same board list. */
  lemma BoardsReplyReachesClient<T, A>(encodeTasks: seq<T> -> string, decodeTasks: string -> Option<A>,
                                       encodeBoards: seq<string> -> string,
                                       decodeBoards: string -> Option<seq<string>>, boards: seq<string>)
    requires CleanText(encodeBoards(boards)) && decodeBoards(encodeBoards(boards)) == Some(boards)
    ensures var line := RenderReply(BoardsReply(boards), encodeTasks, encodeBoards);
            && Frame(line + "\n") == Framed([line], "")
            && ProcessMessage(decodeTasks, decodeBoards, Strip(line)) == Some(BoardsUpdated(boards))
  {
    var line := RenderReply(BoardsReply(boards), encodeTasks, encodeBoards);
    TaggedLine("BOARDS:", encodeBoards(boards));
    ClientReadsLine(line);
    ProcessBoardsMessage(decodeTasks, decodeBoards, encodeBoards(boards));
  }

  /** Wherever the stream cuts a reply line into two reads at a character
      boundary, the client frames the same single line from it. A cut inside
      a multi-byte UTF-8 character is not covered: there the client's
      `decode` of the first read fails. */
  lemma ReplyInTwoReads(line: string, k: nat)
    requires '\n' !in line && k <= |line| + 1
    ensures var wire := line + "\n";
            var first := Frame(wire[..k]);
            first.lines + Frame(first.rest + wire[k..]).lines == [line]
  {
    var wire := line + "\n";
    assert wire == wire[..k] + wire[k..];
    FrameChunks(wire[..k], wire[k..]);
    SendFrames(line);
  }
}
