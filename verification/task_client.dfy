/** The protocol side of the task-board client of
    upd-TaskManager/Task_Client_UPD.py: cutting the received byte stream into
    lines, reading a line as a server message, the priority buttons of a task
    card, and the commands the client sends. The Qt widgets, the socket and
    the receiving thread are left out; JSON is a pair of decoder parameters. */
module TaskClient {
  import opened Options
  import opened Text
  import opened TaskServer

  // ---------------------------------------------------------------------
  // Line framing

  /** Complete lines (without their `'\n'`) and the unterminated rest. */
  datatype Framed = Framed(lines: seq<string>, rest: string)

  /** The text the lines came from: each one followed by `'\n'`. */
  function Terminated(lines: seq<string>): string
  {
    if |lines| == 0 then "" else lines[0] + "\n" + Terminated(lines[1..])
  }

  lemma {:induction false} TerminatedConcat(a: seq<string>, b: seq<string>)
    ensures Terminated(a + b) == Terminated(a) + Terminated(b)
    decreases |a|
  {
    if |a| == 0 {
      assert a + b == b;
    } else {
      assert (a + b)[1..] == a[1..] + b;
      TerminatedConcat(a[1..], b);
    }
  }

  lemma TerminatedAppend(lines: seq<string>, line: string)
    ensures Terminated(lines + [line]) == Terminated(lines) + line + "\n"
  {
    TerminatedConcat(lines, [line]);
    assert Terminated([line]) == line + "\n" + Terminated([]);
  }

  /** No line and not the rest holds a `'\n'`. */
  predicate WellFramed(f: Framed) {
    && '\n' !in f.rest
    && (forall k :: 0 <= k < |f.lines| ==> '\n' !in f.lines[k])
  }

  /** The inner loop of `receive_messages` as a function: split off the
      text up to the first `'\n'` as long as there is one. The lines hold
      no `'\n'`, the rest holds none, and nothing is lost or added. */
  function Frame(buffer: string): (f: Framed)
    ensures WellFramed(f)
    ensures Terminated(f.lines) + f.rest == buffer
    decreases |buffer|
  {
    if '\n' in buffer then
      var parts := CutLine(buffer);
      var f := Frame(parts.1);
      FramePrepend(parts.0, f, parts.1);
      Framed([parts.0] + f.lines, f.rest)
    else Framed([], buffer)
  }

  /** A line put in front of a framing. */
  lemma FramePrepend(line: string, f: Framed, tail: string)
    requires '\n' !in line && WellFramed(f) && Terminated(f.lines) + f.rest == tail
    ensures WellFramed(Framed([line] + f.lines, f.rest))
    ensures Terminated([line] + f.lines) + f.rest == line + "\n" + tail
  {
    var lines := [line] + f.lines;
    assert lines[0] == line && lines[1..] == f.lines;
    assert forall k :: 1 <= k < |lines| ==> lines[k] == f.lines[k - 1];
  }

  /** `buffer.split('\n', 1)` on a buffer holding a `'\n'`: the line before
      the first `'\n'` and everything after it. */
  function CutLine(buffer: string): (r: (string, string))
    requires '\n' in buffer
    ensures '\n' !in r.0 && r.0 + "\n" + r.1 == buffer
    ensures |r.1| < |buffer|
  {
    var parts := Split(buffer, '\n', 1);
    assert |parts| == 2;
    assert parts[1..] == [parts[1]];
    (parts[0], parts[1])
  }

  /** `Frame` is the only well-formed reading: it is determined by what
      it returns. */
  lemma {:induction false} FrameUnique(buffer: string, f: Framed)
    requires WellFramed(f) && Terminated(f.lines) + f.rest == buffer
    ensures Frame(buffer) == f
    decreases |buffer|
  {
    if |f.lines| == 0 {
      assert buffer == f.rest;
    } else {
      var line := f.lines[0];
      var tail := Framed(f.lines[1..], f.rest);
      assert '\n' !in line;
      assert buffer == line + "\n" + (Terminated(tail.lines) + tail.rest);
      assert '\n' in buffer by {
        assert buffer[|line|] == '\n';
      }
      var parts := CutLine(buffer);
      CutUnique(buffer, '\n', line, Terminated(tail.lines) + tail.rest, parts.0, parts.1);
      assert WellFramed(tail) by {
        assert forall k :: 0 <= k < |tail.lines| ==> tail.lines[k] == f.lines[k + 1];
      }
      FrameUnique(parts.1, tail);
      HeadTail(f.lines);
    }
  }

  lemma HeadTail(lines: seq<string>)
    requires |lines| > 0
    ensures lines == [lines[0]] + lines[1..]
  {
  }

  /** Data arriving in pieces is framed as if it had arrived at once: the
      lines of `a + b` are the lines of `a` followed by the lines of what
      is left of `a` with `b` appended. This is why `receive_messages`
      keeps the unterminated rest in its buffer between reads. */
  lemma FrameChunks(a: string, b: string)
    ensures Frame(a + b).lines == Frame(a).lines + Frame(Frame(a).rest + b).lines
    ensures Frame(a + b).rest == Frame(Frame(a).rest + b).rest
  {
    var fa := Frame(a);
    var fb := Frame(fa.rest + b);
    var f := Framed(fa.lines + fb.lines, fb.rest);
    TerminatedConcat(fa.lines, fb.lines);
    ConcatFrames(Terminated(fa.lines), fa.rest, Terminated(fb.lines), fb.rest, a, b);
    assert WellFramed(f) by {
      forall k | 0 <= k < |f.lines|
        ensures '\n' !in f.lines[k]
      {
        if k < |fa.lines| {
          assert f.lines[k] == fa.lines[k];
        } else {
          assert f.lines[k] == fb.lines[k - |fa.lines|];
        }
      }
    }
    FrameUnique(a + b, f);
  }

  /** The text bookkeeping behind `FrameChunks`. */
  lemma ConcatFrames(ta: string, ra: string, tb: string, rb: string, a: string, b: string)
    requires ta + ra == a && tb + rb == ra + b
    ensures (ta + tb) + rb == a + b
  {
    assert (ta + tb) + rb == ta + (tb + rb);
  }

  /** One pass of the outer loop of `receive_messages`: an empty read ends
      the loop; otherwise the data joins the buffer and every complete line
      is stripped and handed on, the unterminated rest staying behind. */
  method Receive(buffer: string, data: string) returns (open: bool, messages: seq<string>, rest: string)
    ensures open <==> data != ""
    ensures !open ==> messages == [] && rest == buffer
    ensures open ==> rest == Frame(buffer + data).rest
    ensures open ==> |messages| == |Frame(buffer + data).lines|
    ensures open ==> forall k :: 0 <= k < |messages| ==> messages[k] == Strip(Frame(buffer + data).lines[k])
  {
    if data == "" {
      return false, [], buffer;
    }
    open := true;
    rest := buffer + data;
    var lines: seq<string> := [];
    messages := [];
    while '\n' in rest
      invariant Reading(buffer + data, lines, rest, messages)
      decreases |rest|
    {
      var parts := CutLine(rest);
      ReceiveStep(buffer + data, lines, rest, messages, parts.0, parts.1);
      lines := lines + [parts.0];
      messages := messages + [Strip(parts.0)];
      rest := parts.1;
    }
    ReceiveDone(buffer + data, lines, rest, messages);
  }

  /** `f` applied to every line, in order. */
  function MapLines(f: string -> string, lines: seq<string>): seq<string>
  {
    if |lines| == 0 then [] else MapLines(f, lines[..|lines| - 1]) + [f(lines[|lines| - 1])]
  }

  lemma {:induction false} MapLinesAt(f: string -> string, lines: seq<string>)
    ensures |MapLines(f, lines)| == |lines|
    ensures forall k :: 0 <= k < |lines| ==> MapLines(f, lines)[k] == f(lines[k])
  {
    if |lines| > 0 {
      var init := lines[..|lines| - 1];
      MapLinesAt(f, init);
      assert forall k :: 0 <= k < |init| ==> lines[k] == init[k];
    }
  }

  /** The loop invariant of `Receive`: the lines cut so far and the rest
      make up the whole buffer, and the messages are the lines stripped. */
  predicate Reading(whole: string, lines: seq<string>, rest: string, messages: seq<string>)
  {
    && Terminated(lines) + rest == whole
    && (forall k :: 0 <= k < |lines| ==> '\n' !in lines[k])
    && messages == MapLines(Strip, lines)
  }

  /** One turn of the inner loop keeps the invariant. */
  lemma ReceiveStep(whole: string, lines: seq<string>, rest: string, messages: seq<string>,
                    line: string, tail: string)
    requires Reading(whole, lines, rest, messages)
    requires '\n' !in line && line + "\n" + tail == rest
    ensures Reading(whole, lines + [line], tail, messages + [Strip(line)])
  {
    ReceiveText(whole, lines, rest, line, tail);
    MapLinesSnoc(Strip, lines, line);
    NewlineFreeSnoc(lines, line);
  }

  lemma MapLinesSnoc(f: string -> string, lines: seq<string>, line: string)
    ensures MapLines(f, lines + [line]) == MapLines(f, lines) + [f(line)]
  {
    var ls := lines + [line];
    assert ls[..|ls| - 1] == lines && ls[|ls| - 1] == line;
  }

  lemma NewlineFreeSnoc(lines: seq<string>, line: string)
    requires forall k :: 0 <= k < |lines| ==> '\n' !in lines[k]
    requires '\n' !in line
    ensures forall k :: 0 <= k < |lines + [line]| ==> '\n' !in (lines + [line])[k]
  {
    var ls := lines + [line];
    forall k | 0 <= k < |ls|
      ensures '\n' !in ls[k]
    {
      if k < |lines| {
        assert ls[k] == lines[k];
      }
    }
  }

  lemma ReceiveText(whole: string, lines: seq<string>, rest: string, line: string, tail: string)
    requires Terminated(lines) + rest == whole && line + "\n" + tail == rest
    ensures Terminated(lines + [line]) + tail == whole
  {
    TerminatedAppend(lines, line);
    assert Terminated(lines) + line + "\n" + tail == Terminated(lines) + (line + "\n" + tail);
  }

  /** Once no `'\n'` is left, the loop has computed `Frame`. */
  lemma ReceiveDone(whole: string, lines: seq<string>, rest: string, messages: seq<string>)
    requires Reading(whole, lines, rest, messages) && '\n' !in rest
    ensures rest == Frame(whole).rest && |messages| == |Frame(whole).lines|
    ensures forall k :: 0 <= k < |messages| ==> messages[k] == Strip(Frame(whole).lines[k])
  {
    FrameUnique(whole, Framed(lines, rest));
    MapLinesAt(Strip, lines);
  }

  // ---------------------------------------------------------------------
  // Reading a server message

  /** What `process_message` emits: `tasks_updated(tasks, board)` or
      `boards_updated(boards)`. */
  datatype Event<A, B> = TasksUpdated(tasks: A, board: string) | BoardsUpdated(boards: B)

  /** `process_message(message)`. `TASKS:board:json` gives the decoded
      tasks of the board named between the first two colons, `BOARDS:json`
      the decoded board list; a missing part, a decoding failure or any
      other message gives nothing (the Python code prints and moves on). */
  function ProcessMessage<A, B>(decodeTasks: string -> Option<A>, decodeBoards: string -> Option<B>,
                                message: string): (e: Option<Event<A, B>>)
    ensures !StartsWith(message, "TASKS:") && !StartsWith(message, "BOARDS:") ==> e.None?
    ensures e.Some? && e.value.TasksUpdated? ==>
              && ':' !in e.value.board
              && StartsWith(message, "TASKS:" + e.value.board + ":")
              && decodeTasks(message[|e.value.board| + 7..]) == Some(e.value.tasks)
    ensures e.Some? && e.value.BoardsUpdated? ==>
              StartsWith(message, "BOARDS:") && decodeBoards(message[7..]) == Some(e.value.boards)
  {
    if StartsWith(message, "TASKS:") then
      var parts := Split(message, ':', 2);
      if |parts| < 3 then None
      else
        match decodeTasks(parts[2])
        case None => None
        case Some(tasks) =>
          TasksMessageParts(message, parts);
          Some(TasksUpdated(tasks, parts[1]))
    else if StartsWith(message, "BOARDS:") then
      match decodeBoards(message[7..])
      case None => None
      case Some(boards) => Some(BoardsUpdated(boards))
    else None
  }

  /** The three parts of a `TASKS:` message put back together. */
  lemma TasksMessageParts(message: string, parts: seq<string>)
    requires StartsWith(message, "TASKS:") && parts == Split(message, ':', 2) && |parts| == 3
    ensures parts[0] == "TASKS" && ':' !in parts[1]
    ensures message == "TASKS:" + parts[1] + ":" + parts[2]
  {
    ThreeParts(message, parts);
    assert ':' !in parts[0] && ':' !in parts[1];
    TasksHead(message, parts[0], parts[1], parts[2]);
  }

  /** A `TASKS:` text cut at its first two colons has `TASKS` as its head. */
  lemma TasksHead(message: string, head: string, board: string, payload: string)
    requires StartsWith(message, "TASKS:") && message == head + ":" + board + ":" + payload
    requires ':' !in head
    ensures head == "TASKS"
  {
    assert message == head + [':'] + (board + [':'] + payload);
    PrefixRest(message, "TASKS:");
    assert message == "TASKS" + [':'] + message[6..];
    NamesColonFree();
    CutUnique(message, ':', "TASKS", message[6..], head, board + [':'] + payload);
  }

  lemma PrefixRest(s: string, prefix: string)
    requires StartsWith(s, prefix)
    ensures s == prefix + s[|prefix|..]
  {
    assert s == s[..|prefix|] + s[|prefix|..];
  }

  /** Splitting the text of a `TASKS:` reply finds its board and payload. */
  lemma SplitTasksMessage(board: string, payload: string)
    requires ':' !in board
    ensures Split("TASKS:" + board + ":" + payload, ':', 2) == ["TASKS", board, payload]
  {
    SplitStep(board, ':', payload, 1);
    NamesColonFree();
    assert "TASKS:" + board + ":" + payload == "TASKS" + [':'] + (board + [':'] + payload);
    SplitStep("TASKS", ':', board + [':'] + payload, 2);
  }

  /** A well-formed `TASKS:` line is read back as the board and payload it
      was written from: the inverse of the server's rendering. */
  lemma ProcessTasksMessage<A, B>(decodeTasks: string -> Option<A>, decodeBoards: string -> Option<B>,
                                  board: string, payload: string)
    requires ':' !in board
    ensures var e := ProcessMessage(decodeTasks, decodeBoards, "TASKS:" + board + ":" + payload);
            && (decodeTasks(payload).None? ==> e.None?)
            && (decodeTasks(payload).Some? ==> e == Some(TasksUpdated(decodeTasks(payload).value, board)))
  {
    var message := "TASKS:" + board + ":" + payload;
    SplitTasksMessage(board, payload);
    assert message[..6] == "TASKS:";
  }

  /** A `BOARDS:` line is read back as its payload. */
  lemma ProcessBoardsMessage<A, B>(decodeTasks: string -> Option<A>, decodeBoards: string -> Option<B>,
                                   payload: string)
    ensures var e := ProcessMessage(decodeTasks, decodeBoards, "BOARDS:" + payload);
            && (decodeBoards(payload).None? ==> e.None?)
            && (decodeBoards(payload).Some? ==> e == Some(BoardsUpdated(decodeBoards(payload).value)))
  {
    var message := "BOARDS:" + payload;
    assert message[..7] == "BOARDS:" && message[7..] == payload;
    assert !StartsWith(message, "TASKS:") by {
      assert message[0] == 'B';
    }
  }

  // ---------------------------------------------------------------------
  // Task priority

  /** The priority ladder of a task card, lowest first. */
  const Ladder: seq<string> := ["low", "medium", "high"]

  /** `order.index(priority)`; `None` where Python raises `ValueError`. */
  function Rank(p: string): (r: Option<nat>)
    ensures r.Some? <==> p in Ladder
    ensures r.Some? ==> r.value < |Ladder| && Ladder[r.value] == p
  {
    if p == "low" then Some(0) else if p == "medium" then Some(1) else if p == "high" then Some(2) else None
  }

  /** The card after a priority button: its new priority, and whether it
      sent the task update to the server. */
  datatype Bump = Bump(priority: string, notified: bool)

  /** `increase_priority`: one step up the ladder unless already at the
      top; the server is told only when the priority changed and the card
      has a client. `None` for a priority off the ladder. */
  function IncreasePriority(p: string, hasClient: bool): (r: Option<Bump>)
    ensures r.None? <==> p !in Ladder
    ensures r.Some? ==> r.value.priority in Ladder
    ensures r.Some? ==> Rank(r.value.priority).value == if Rank(p).value < 2 then Rank(p).value + 1 else 2
    ensures r.Some? ==> (r.value.notified <==> hasClient && r.value.priority != p)
  {
    match Rank(p)
    case None => None
    case Some(i) =>
      if i < 2 then Some(Bump(Ladder[i + 1], hasClient)) else Some(Bump(p, false))
  }

  /** `decrease_priority`: one step down the ladder unless already at the
      bottom; same notification rule. */
  function DecreasePriority(p: string, hasClient: bool): (r: Option<Bump>)
    ensures r.None? <==> p !in Ladder
    ensures r.Some? ==> r.value.priority in Ladder
    ensures r.Some? ==> Rank(r.value.priority).value == if Rank(p).value > 0 then Rank(p).value - 1 else 0
    ensures r.Some? ==> (r.value.notified <==> hasClient && r.value.priority != p)
  {
    match Rank(p)
    case None => None
    case Some(i) =>
      if i > 0 then Some(Bump(Ladder[i - 1], hasClient)) else Some(Bump(p, false))
  }

  /** Lowering undoes raising, and raising undoes lowering, away from the
      end the button cannot move past. */
  lemma PriorityInverse(p: string, hasClient: bool)
    requires p in Ladder
    ensures p != "high" ==> DecreasePriority(IncreasePriority(p, hasClient).value.priority, hasClient).value.priority == p
    ensures p != "low" ==> IncreasePriority(DecreasePriority(p, hasClient).value.priority, hasClient).value.priority == p
  {
  }

  /** At the top, raising does nothing and sends nothing; at the bottom,
      lowering does nothing and sends nothing; two presses reach the end
      from anywhere on the ladder. */
  lemma PrioritySaturates(p: string, hasClient: bool)
    requires p in Ladder
    ensures IncreasePriority("high", hasClient) == Some(Bump("high", false))
    ensures DecreasePriority("low", hasClient) == Some(Bump("low", false))
    ensures IncreasePriority(IncreasePriority(p, hasClient).value.priority, hasClient).value.priority == "high"
    ensures DecreasePriority(DecreasePriority(p, hasClient).value.priority, hasClient).value.priority == "low"
  {
  }

  // ---------------------------------------------------------------------
  // Outgoing commands

  /** The result of `send(message)`: the text put on the wire, if any, and
      whether the client is still running. Nothing is sent while not
      running; a failing send disconnects. */
  datatype Sent = Sent(wire: Option<string>, running: bool)

  function Send(running: bool, fails: bool, message: string): (r: Sent)
    ensures r.wire.Some? <==> running && !fails
    ensures r.wire.Some? && '\n' !in message ==> Frame(r.wire.value) == Framed([message], "")
    ensures r.wire.Some? ==> StartsWith(r.wire.value, message) && |r.wire.value| == |message| + 1
    ensures r.wire.Some? ==> r.wire.value[|message|] == '\n'
    ensures r.running <==> running && !fails
  {
    if !running then Sent(None, false)
    else if fails then Sent(None, false)
    else
      SendFrames(message);
      assert (message + "\n")[..|message|] == message;
      Sent(Some(message + "\n"), true)
  }

  /** One line sent is one line framed. */
  lemma SendFrames(message: string)
    ensures '\n' !in message ==> Frame(message + "\n") == Framed([message], "")
  {
    TerminatedAppend([], message);
    assert [] + [message] == [message];
    if '\n' !in message {
      FrameUnique(message + "\n", Framed([message], ""));
    }
  }

  /** `add_task(task)` and `update_tasks(tasks)` both send
      `NAME:board:json`. The server parses it back into the same command
      whenever the name and the board are free of `:`. */
  function TaggedCommand(name: string, board: string, json: string): (m: string)
    ensures ':' !in name && ':' !in board ==> ParseCommand(m) == Command(name, board, Some(json))
  {
    if ':' !in name && ':' !in board then
      ParseFormat(Command(name, board, Some(json)));
      FormatCommand(Command(name, board, Some(json)))
    else FormatCommand(Command(name, board, Some(json)))
  }

  /** `add_task(task)`: `ADD:board:json`. */
  function AddTaskCommand(board: string, taskJson: string): string
  {
    TaggedCommand("ADD", board, taskJson)
  }

  /** `update_tasks(tasks)`: `UPDATE:board:json`. */
  function UpdateTasksCommand(board: string, tasksJson: string): string
  {
    TaggedCommand("UPDATE", board, tasksJson)
  }

  /** `get_tasks(board_name)`: a non-empty board name becomes the current
      board; then `GET_TASKS:current` is sent. Returns the new current board
      and the command. */
  function GetTasksCommand(current: string, boardName: Option<string>): (r: (string, string))
    ensures boardName.Some? && boardName.value != "" ==> r.0 == boardName.value
    ensures boardName.None? || boardName.value == "" ==> r.0 == current
    ensures ':' !in r.0 ==> ParseCommand(r.1) == Command("GET_TASKS", r.0, None)
  {
    var board := if boardName.Some? && boardName.value != "" then boardName.value else current;
    NamesColonFree();
    if ':' !in board then
      ParseFormat(Command("GET_TASKS", board, None));
      (board, FormatCommand(Command("GET_TASKS", board, None)))
    else (board, FormatCommand(Command("GET_TASKS", board, None)))
  }

  // ---------------------------------------------------------------------
  // Creating a board

  /** `create_new_board()` as written: if the dialog was accepted and its
      text is not blank once stripped, the stripped text becomes the current
      board through `get_tasks(board_name)`. A name holding `:` is not
      refused. Returns the new current board and the command sent. */
  function CreateNewBoard(current: string, input: string, ok: bool): (r: Option<(string, string)>)
    ensures r.Some? <==> ok && Strip(input) != ""
    ensures r.Some? ==> r.value.0 == Strip(input) && Strip(r.value.0) == r.value.0
  {
    StripIdempotent(input);
    if ok && Strip(input) != "" then Some(GetTasksCommand(current, Some(Strip(input)))) else None
  }

  /** The as-written `create_new_board` accepts any name holding `:`, such
      as `a:b`, and the server then reads the command it sends as something
      other than `GET_TASKS` on that board (for `a:b`: board `a` with a
      payload `b`), so the client's new board is not the one served. */
  lemma CreateNewBoardMisparsed(current: string, input: string, ok: bool)
    requires CreateNewBoard(current, input, ok).Some? && ':' in Strip(input)
    ensures var r := CreateNewBoard(current, input, ok).value;
            ParseCommand(r.1) != Command("GET_TASKS", r.0, None)
  {
    var r := CreateNewBoard(current, input, ok).value;
    var c := ParseCommand(r.1);
    assert ':' !in c.board;
  }

  /** A name such as `a:b` gets through the as-written check: any
      non-blank characters around a `:`. */
  lemma CreateNewBoardAcceptsColon(current: string, x: char, y: char)
    requires !IsSpace(x) && !IsSpace(y)
    ensures CreateNewBoard(current, [x, ':', y], true).Some? && ':' in Strip([x, ':', y])
  {
    var name := [x, ':', y];
    assert Strip(name) == name by {
      StripKeeps(name);
    }
    assert ':' in name by {
      assert name[1] == ':';
    }
  }

  /** The text `get_tasks` sends: `GET_TASKS:` and the new current board. */
  lemma GetTasksText(current: string, boardName: Option<string>)
    ensures GetTasksCommand(current, boardName).1 == "GET_TASKS" + ":" + GetTasksCommand(current, boardName).0
  {
  }

  /** `create_new_board()` with the check it evidently needs: a name that
      holds `:` is refused like a blank one, so the server always reads
      `GET_TASKS` on exactly the board the client switched to. */
  function CreateNewBoardChecked(current: string, input: string, ok: bool): (r: Option<(string, string)>)
    ensures r.Some? <==> ok && Strip(input) != "" && ':' !in Strip(input)
    ensures r.Some? ==> && r.value.0 == Strip(input)
                        && ParseCommand(r.value.1) == Command("GET_TASKS", Strip(input), None)
                        && Strip(r.value.0) == r.value.0
  {
    StripIdempotent(input);
    if ok && Strip(input) != "" && ':' !in Strip(input) then
      Some(GetTasksCommand(current, Some(Strip(input))))
    else None
  }

  /** `get_boards()`: `GET_BOARDS:ALL`. */
  function GetBoardsCommand(): (m: string)
    ensures ParseCommand(m) == Command("GET_BOARDS", "ALL", None)
  {
    ParseFormat(Command("GET_BOARDS", "ALL", None));
    FormatCommand(Command("GET_BOARDS", "ALL", None))
  }
}
