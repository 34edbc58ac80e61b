/** The task-board server of upd-TaskManager/Task_Server_UPD.py with its
    sockets, threads and lock taken away: one received chunk is handled by a
    pure function from the server state to the next state plus the replies
    that reach their sockets. Task values are left abstract (`T`); the JSON
    decoder is a parameter, and so is the set of sockets whose sends fail. */
module TaskServer {
  import opened Options
  import opened Text

  /** The board every server starts with, and the board addressed by a
      command without a `:` ("main board"). */
  const MainBoard: string := "Главная доска"

  /** The commands after which a connection follows the board it named. */
  const Subscribing: set<string> := {"ADD", "UPDATE", "GET_TASKS"}

  /** A socket, by identity. */
  type SocketId = nat

  // ---------------------------------------------------------------------
  // Commands

  datatype Command = Command(name: string, board: string, payload: Option<string>)

  /** The text of a command: `name:board` or `name:board:payload`. This is
      the format the client's `add_task`, `update_tasks`, `get_tasks` and
      `get_boards` produce. */
  function FormatCommand(c: Command): string
  {
    match c.payload
    case None => c.name + ":" + c.board
    case Some(p) => c.name + ":" + c.board + ":" + p
  }

  /** `data.split(':', 2)` read as command, board and payload. The command
      is the text before the first `:`; without a `:` the whole text is the
      command and the board is the main board; the payload is everything
      after the second `:`, further colons included, and is absent without a
      second `:`. */
  function ParseCommand(data: string): (c: Command)
    ensures ':' !in c.name
    ensures ':' !in data ==> c == Command(data, MainBoard, None)
    ensures ':' in data ==> ':' !in c.board && FormatCommand(c) == data
  {
    var parts := Split(data, ':', 2);
    CommandParts(data, parts);
    CommandOf(parts)
  }

  /** Command, board and payload read off the parts of a split. */
  function CommandOf(parts: seq<string>): Command
    requires |parts| >= 1
  {
    Command(parts[0],
            if |parts| > 1 then parts[1] else MainBoard,
            if |parts| > 2 then Some(parts[2]) else None)
  }

  /** What `ParseCommand` promises, for any parts `data.split(':', 2)` may
      return. */
  lemma CommandParts(data: string, parts: seq<string>)
    requires 1 <= |parts| <= 3 && Join(parts, ':') == data
    requires forall k :: 0 <= k < |parts| - 1 ==> ':' !in parts[k]
    requires |parts| <= 2 ==> ':' !in parts[|parts| - 1]
    ensures var c := CommandOf(parts);
            && ':' !in c.name
            && (':' !in data ==> c == Command(data, MainBoard, None))
            && (':' in data ==> ':' !in c.board && FormatCommand(c) == data)
  {
    var c := CommandOf(parts);
    if |parts| == 1 {
      assert data == parts[0];
    } else if |parts| == 2 {
      TwoParts(data, parts);
      assert c == Command(parts[0], parts[1], None);
      FormatTwo(data, parts[0], parts[1]);
    } else {
      ThreeParts(data, parts);
      assert c == Command(parts[0], parts[1], Some(parts[2]));
      FormatThree(data, parts[0], parts[1], parts[2]);
    }
  }

  lemma FormatTwo(data: string, name: string, board: string)
    requires data == name + ":" + board
    ensures ':' in data && FormatCommand(Command(name, board, None)) == data
  {
    assert data[|name|] == ':';
  }

  lemma FormatThree(data: string, name: string, board: string, payload: string)
    requires data == name + ":" + board + ":" + payload
    ensures ':' in data && FormatCommand(Command(name, board, Some(payload))) == data
  {
    assert data[|name|] == ':';
  }

  lemma TwoParts(data: string, parts: seq<string>)
    requires |parts| == 2 && Join(parts, ':') == data
    ensures data == parts[0] + ":" + parts[1]
  {
    assert parts[1..] == [parts[1]];
  }

  lemma ThreeParts(data: string, parts: seq<string>)
    requires |parts| == 3 && Join(parts, ':') == data
    ensures data == parts[0] + ":" + parts[1] + ":" + parts[2]
  {
    JoinThree(parts, ':');
    ColonAssoc(parts[0], parts[1], parts[2]);
  }

  lemma ColonAssoc(a: string, b: string, c: string)
    ensures a + [':'] + (b + [':'] + c) == a + ":" + b + ":" + c
  {
  }

  /** Parsing recovers a formatted command whose name and board are free of
      `:`; together with `ParseCommand`'s own contract this makes the two
      inverse to each other. */
  lemma ParseFormat(c: Command)
    requires ':' !in c.name && ':' !in c.board
    ensures ParseCommand(FormatCommand(c)) == c
  {
    match c.payload {
      case None =>
        ParseTwo(c.name, c.board);
      case Some(p) =>
        ParseThree(c.name, c.board, p);
    }
  }

  lemma ParseTwo(name: string, board: string)
    requires ':' !in name && ':' !in board
    ensures ParseCommand(name + ":" + board) == Command(name, board, None)
  {
    SplitStep(name, ':', board, 2);
    SplitNone(board, ':', 1);
  }

  lemma ParseThree(name: string, board: string, payload: string)
    requires ':' !in name && ':' !in board
    ensures ParseCommand(name + ":" + board + ":" + payload) == Command(name, board, Some(payload))
  {
    assert name + ":" + board + ":" + payload == name + [':'] + (board + [':'] + payload);
    SplitStep(name, ':', board + [':'] + payload, 2);
    SplitStep(board, ':', payload, 1);
  }

  // ---------------------------------------------------------------------
  // The board store: `self.tasks`, a dict from board name to task list.
  // A Python dict remembers insertion order, which `GET_BOARDS` exposes, so
  // the store keeps the board names in creation order beside the map.

  datatype Store<T> = Store(boards: seq<string>, tasks: map<string, seq<T>>)

  ghost predicate ValidStore<T>(st: Store<T>) {
    && (forall b :: b in st.tasks <==> b in st.boards)
    && (forall i, j :: 0 <= i < j < |st.boards| ==> st.boards[i] != st.boards[j])
  }

  /** `self.tasks = {}; self.tasks["Главная доска"] = []`. */
  function InitialStore<T>(): (st: Store<T>)
    ensures ValidStore(st)
    ensures st.tasks.Keys == {MainBoard} && st.tasks[MainBoard] == []
  {
    Store([MainBoard], map[MainBoard := []])
  }

  /** `self.tasks.get(board, [])`. */
  function TasksOf<T>(st: Store<T>, board: string): seq<T>
  {
    if board in st.tasks then st.tasks[board] else []
  }

  /** The `if board not in self.tasks` step of `handle_client`: an unknown
      board is created with an empty list, at the end of the board order; a
      known board is left as it is. */
  function EnsureBoard<T>(st: Store<T>, board: string): (r: Store<T>)
    requires ValidStore(st)
    ensures ValidStore(r)
    ensures board in r.tasks && r.tasks[board] == TasksOf(st, board)
    ensures forall b :: b in st.tasks ==> b in r.tasks && r.tasks[b] == st.tasks[b]
    ensures forall b :: b in r.tasks ==> b in st.tasks || b == board
    ensures |st.boards| <= |r.boards| && r.boards[..|st.boards|] == st.boards
  {
    if board in st.tasks then st
    else
      var r := Store(st.boards + [board], st.tasks[board := []]);
      assert r.boards[..|st.boards|] == st.boards;
      r
  }

  /** `tasks_for_board.append(task)`: exactly one task more on `board`,
      every other board as it was. */
  function AppendTask<T>(st: Store<T>, board: string, task: T): (r: Store<T>)
    requires ValidStore(st) && board in st.tasks
    ensures ValidStore(r) && r.boards == st.boards && r.tasks.Keys == st.tasks.Keys
    ensures r.tasks[board] == st.tasks[board] + [task]
    ensures forall b :: b in st.tasks && b != board ==> r.tasks[b] == st.tasks[b]
  {
    Store(st.boards, st.tasks[board := st.tasks[board] + [task]])
  }

  /** `self.tasks[board_name] = update_tasks`: the whole list of `board`
      replaced, every other board as it was. */
  function ReplaceTasks<T>(st: Store<T>, board: string, tasks: seq<T>): (r: Store<T>)
    requires ValidStore(st) && board in st.tasks
    ensures ValidStore(r) && r.boards == st.boards && r.tasks.Keys == st.tasks.Keys
    ensures r.tasks[board] == tasks
    ensures forall b :: b in st.tasks && b != board ==> r.tasks[b] == st.tasks[b]
  {
    Store(st.boards, st.tasks[board := tasks])
  }

  // ---------------------------------------------------------------------
  // Subscriptions: `self.clients`, a list of (socket, board) pairs.

  datatype Subscription = Subscription(socket: SocketId, board: string)

  /** The list with every entry of the sockets in `gone` dropped, the other
      entries kept in order. */
  function RemoveSockets(clients: seq<Subscription>, gone: set<SocketId>): seq<Subscription>
  {
    if |clients| == 0 then []
    else (if clients[0].socket in gone then [] else [clients[0]]) + RemoveSockets(clients[1..], gone)
  }

  /** Exactly the entries of the sockets outside `gone` remain. */
  lemma {:induction false} RemoveSocketsMembers(clients: seq<Subscription>, gone: set<SocketId>)
    ensures forall e :: e in RemoveSockets(clients, gone) <==> e in clients && e.socket !in gone
    ensures |RemoveSockets(clients, gone)| <= |clients|
  {
    if |clients| > 0 {
      RemoveSocketsMembers(clients[1..], gone);
      assert forall e :: e in clients <==> e == clients[0] || e in clients[1..];
    }
  }

  /** Filtering distributes over concatenation: entries keep their order. */
  lemma {:induction false} RemoveSocketsAppend(a: seq<Subscription>, b: seq<Subscription>, gone: set<SocketId>)
    ensures RemoveSockets(a + b, gone) == RemoveSockets(a, gone) + RemoveSockets(b, gone)
  {
    if |a| > 0 {
      var head := if a[0].socket in gone then [] else [a[0]];
      var x := RemoveSockets(a[1..], gone);
      var y := RemoveSockets(b, gone);
      assert (a + b)[0] == a[0] && (a + b)[1..] == a[1..] + b;
      assert RemoveSockets(a + b, gone) == head + RemoveSockets(a[1..] + b, gone);
      RemoveSocketsAppend(a[1..], b, gone);
      assert RemoveSockets(a, gone) == head + x;
      assert head + (x + y) == (head + x) + y;
    } else {
      assert a + b == b;
    }
  }

  /** Nothing is dropped when none of the sockets is listed. */
  lemma {:induction false} RemoveSocketsAbsent(clients: seq<Subscription>, gone: set<SocketId>)
    requires forall k :: 0 <= k < |clients| ==> clients[k].socket !in gone
    ensures RemoveSockets(clients, gone) == clients
  {
    if |clients| > 0 {
      RemoveSocketsAbsent(clients[1..], gone);
      assert clients == [clients[0]] + clients[1..];
    }
  }

  /** `_remove_client(s)`: every entry of `s` gone, the others kept in
      their original order. */
  function RemoveClient(clients: seq<Subscription>, s: SocketId): (r: seq<Subscription>)
    ensures forall e :: e in r <==> e in clients && e.socket != s
    ensures forall k :: 0 <= k < |r| ==> r[k].socket != s
  {
    RemoveSocketsMembers(clients, {s});
    RemoveSockets(clients, {s})
  }

  /** `_add_client_to_board(s, b)`: afterwards the list holds exactly one
      entry for `s`, namely `(s, b)`, and it is the last one; entries of
      other sockets are untouched. */
  function AddClientToBoard(clients: seq<Subscription>, s: SocketId, board: string): (r: seq<Subscription>)
    ensures |r| > 0 && r[|r| - 1] == Subscription(s, board)
    ensures forall k :: 0 <= k < |r| - 1 ==> r[k].socket != s
    ensures forall e: Subscription :: e.socket != s ==> (e in r <==> e in clients)
  {
    RemoveClient(clients, s) + [Subscription(s, board)]
  }

  /** The sockets `broadcast_board(board)` sends to, in list order: those
      whose entry names `board`. */
  function Subscribers(clients: seq<Subscription>, board: string): (r: seq<SocketId>)
    ensures forall x :: x in r <==> Subscription(x, board) in clients
  {
    if |clients| == 0 then []
    else
      var rest := Subscribers(clients[1..], board);
      assert forall e :: e in clients <==> e == clients[0] || e in clients[1..];
      (if clients[0].board == board then [clients[0].socket] else []) + rest
  }

  // ---------------------------------------------------------------------
  // Replies

  datatype Reply<T> = TasksReply(board: string, tasks: seq<T>) | BoardsReply(boards: seq<string>)

  /** A reply that reached its socket. */
  datatype Delivery<T> = Delivery(to: SocketId, reply: Reply<T>)

  /** The text of a reply, before its `'\n'` terminator: `TASKS:board:json`
      or `BOARDS:json`, the JSON encoders being parameters. */
  function RenderReply<T>(reply: Reply<T>, encodeTasks: seq<T> -> string,
                          encodeBoards: seq<string> -> string): string
  {
    match reply
    case TasksReply(b, ts) => "TASKS:" + b + ":" + encodeTasks(ts)
    case BoardsReply(bs) => "BOARDS:" + encodeBoards(bs)
  }

  datatype Fanout<T> = Fanout(sent: seq<Delivery<T>>, clients: seq<Subscription>)

  function Deliver<T>(targets: seq<SocketId>, reply: Reply<T>, failed: set<SocketId>): (r: seq<Delivery<T>>)
    ensures forall k :: 0 <= k < |r| ==> r[k].reply == reply
    ensures forall x :: Delivery(x, reply) in r <==> x in targets && x !in failed
  {
    if |targets| == 0 then []
    else
      var rest := Deliver(targets[1..], reply, failed);
      assert forall x :: x in targets <==> x == targets[0] || x in targets[1..];
      (if targets[0] in failed then [] else [Delivery(targets[0], reply)]) + rest
  }

  /** What a broadcast of `tasks` on `board` leaves behind: every delivery
      carries `tasks`; a socket receives them exactly when it is subscribed
      to the board and its send succeeds; and a subscriber whose send fails
      loses all its entries while every other entry stays. */
  ghost predicate Broadcasted<T>(clients: seq<Subscription>, board: string, tasks: seq<T>,
                                 failed: set<SocketId>, sent: seq<Delivery<T>>,
                                 clients': seq<Subscription>)
  {
    && (forall k :: 0 <= k < |sent| ==> sent[k].reply == TasksReply(board, tasks))
    && (forall x :: Delivery(x, TasksReply(board, tasks)) in sent <==>
          Subscription(x, board) in clients && x !in failed)
    && (forall e :: e in clients' <==>
          e in clients && !(e.socket in failed && Subscription(e.socket, board) in clients))
  }

  /** `broadcast_board(board)`: the board's current list goes to every
      subscriber of `board` whose send succeeds; every subscriber whose send
      fails loses all its entries. */
  function Broadcast<T>(st: Store<T>, clients: seq<Subscription>, board: string,
                        failed: set<SocketId>): (f: Fanout<T>)
    ensures Broadcasted(clients, board, TasksOf(st, board), failed, f.sent, f.clients)
  {
    var targets := Subscribers(clients, board);
    var dead := set x | x in targets && x in failed;
    RemoveSocketsMembers(clients, dead);
    Fanout(Deliver(targets, TasksReply(board, TasksOf(st, board)), failed),
           RemoveSockets(clients, dead))
  }

  // ---------------------------------------------------------------------
  // Handling one received chunk

  /** The JSON decoders: one task for `ADD`, a task list for `UPDATE`. */
  datatype Codec<T> = Codec(task: string -> Option<T>, taskList: string -> Option<seq<T>>)

  datatype Server<T> = Server(store: Store<T>, clients: seq<Subscription>)

  function InitialServer<T>(): (srv: Server<T>)
    ensures ValidStore(srv.store) && MainBoard in srv.store.tasks && srv.clients == []
  {
    Server(InitialStore(), [])
  }

  /** The state of one `handle_client` thread after one chunk: the shared
      server state, the thread's `current_board`, the replies delivered,
      and whether the connection stays open. */
  datatype Outcome<T> = Outcome(server: Server<T>, current: Option<string>,
                                sent: seq<Delivery<T>>, open: bool)

  /** `if payload:` — a missing or empty payload is treated alike. */
  predicate HasPayload(c: Command) {
    c.payload.Some? && c.payload.value != ""
  }

  /** The re-binding step of `handle_client`, before the command is
      dispatched: `ADD`, `UPDATE` and `GET_TASKS` bind the connection to
      the board they name, re-binding only when it differs from the current
      one; other commands leave the binding alone. */
  function Rebind(clients: seq<Subscription>, s: SocketId, current: Option<string>,
                  c: Command): (r: (seq<Subscription>, Option<string>))
    ensures c.name in Subscribing ==> r.1 == Some(c.board)
    ensures c.name !in Subscribing ==> r == (clients, current)
    ensures current == Some(c.board) ==> r.0 == clients
    ensures c.name in Subscribing && current != Some(c.board) ==> r.0 == AddClientToBoard(clients, s, c.board)
  {
    if c.name in Subscribing && current != Some(c.board) then
      (AddClientToBoard(clients, s, c.board), Some(c.board))
    else (clients, current)
  }

  /** An `ADD` or `UPDATE` whose payload is present and decodes: the
      commands that change a board and broadcast it. */
  predicate Applies<T>(codec: Codec<T>, c: Command) {
    || (c.name == "ADD" && HasPayload(c) && codec.task(c.payload.value).Some?)
    || (c.name == "UPDATE" && HasPayload(c) && codec.taskList(c.payload.value).Some?)
  }

  /** The command dispatch of `handle_client` (`if command == "ADD"` and
      the branches after it), once the board exists and the connection is
      bound. */
  function Execute<T>(codec: Codec<T>, st: Store<T>, clients: seq<Subscription>,
                      s: SocketId, current: Option<string>, c: Command,
                      failed: set<SocketId>): (o: Outcome<T>)
    requires ValidStore(st) && c.board in st.tasks
    ensures o.open && o.current == current
    ensures ValidStore(o.server.store) && o.server.store.boards == st.boards
    ensures o.server.store.tasks.Keys == st.tasks.Keys
    ensures forall b :: b in st.tasks && b != c.board ==> o.server.store.tasks[b] == st.tasks[b]
    ensures c.name != "ADD" && c.name != "UPDATE" ==> o.server == Server(st, clients)
    ensures c.name !in {"ADD", "UPDATE", "GET_TASKS", "GET_BOARDS"} ==> o.sent == []
    ensures c.name == "ADD" ==>
              if HasPayload(c) && codec.task(c.payload.value).Some? then
                o.server.store.tasks[c.board] == st.tasks[c.board] + [codec.task(c.payload.value).value]
              else o.server == Server(st, clients) && o.sent == []
    ensures c.name == "UPDATE" ==>
              if HasPayload(c) && codec.taskList(c.payload.value).Some? then
                o.server.store.tasks[c.board] == codec.taskList(c.payload.value).value
              else o.server == Server(st, clients) && o.sent == []
    ensures Applies(codec, c) ==>
              Broadcasted(clients, c.board, o.server.store.tasks[c.board], failed, o.sent, o.server.clients)
  {
    if c.name == "ADD" then
      if HasPayload(c) && codec.task(c.payload.value).Some? then
        var st' := AppendTask(st, c.board, codec.task(c.payload.value).value);
        var f := Broadcast(st', clients, c.board, failed);
        Outcome(Server(st', f.clients), current, f.sent, true)
      else Outcome(Server(st, clients), current, [], true)
    else if c.name == "UPDATE" then
      if HasPayload(c) && codec.taskList(c.payload.value).Some? then
        var st' := ReplaceTasks(st, c.board, codec.taskList(c.payload.value).value);
        var f := Broadcast(st', clients, c.board, failed);
        Outcome(Server(st', f.clients), current, f.sent, true)
      else Outcome(Server(st, clients), current, [], true)
    else if c.name == "GET_TASKS" then
      var sent := if s in failed then [] else [Delivery(s, TasksReply(c.board, st.tasks[c.board]))];
      Outcome(Server(st, clients), current, sent, true)
    else if c.name == "GET_BOARDS" then
      var sent := if s in failed then [] else [Delivery(s, BoardsReply(st.boards))];
      Outcome(Server(st, clients), current, sent, true)
    else Outcome(Server(st, clients), current, [], true)
  }

  /** One parsed command of `handle_client` on socket `s`: create the board
      if it is unknown, re-bind, and execute. */
  function Step<T>(codec: Codec<T>, srv: Server<T>, s: SocketId, current: Option<string>,
                   c: Command, failed: set<SocketId>): (o: Outcome<T>)
    requires ValidStore(srv.store)
    ensures o.open && ValidStore(o.server.store)
    ensures |srv.store.boards| <= |o.server.store.boards|
    ensures o.server.store.boards[..|srv.store.boards|] == srv.store.boards
    ensures forall b :: b in o.server.store.tasks <==> b in srv.store.tasks || b == c.board
  {
    var st := EnsureBoard(srv.store, c.board);
    var rb := Rebind(srv.clients, s, current, c);
    Execute(codec, st, rb.0, s, rb.1, c, failed)
  }

  /** One turn of the `handle_client` loop on socket `s` for the received
      chunk: strip it; an empty result ends the loop, and the `finally`
      clause drops the socket's subscriptions; otherwise the stripped text
      is parsed and run as one command. */
  function HandleChunk<T>(codec: Codec<T>, srv: Server<T>, s: SocketId, current: Option<string>,
                          chunk: string, failed: set<SocketId>): (o: Outcome<T>)
    requires ValidStore(srv.store)
    ensures ValidStore(o.server.store)
    ensures o.open <==> Strip(chunk) != ""
    ensures !o.open ==> o.server == Server(srv.store, RemoveClient(srv.clients, s)) && o.sent == []
  {
    var data := Strip(chunk);
    if data == "" then Outcome(Server(srv.store, RemoveClient(srv.clients, s)), current, [], false)
    else Step(codec, srv, s, current, ParseCommand(data), failed)
  }

  // ---------------------------------------------------------------------
  // Properties of a turn

  /** Boards are never removed or reordered: the old board order is a
      prefix of the new one, and an existing board loses no key. */
  lemma BoardsNeverRemoved<T>(codec: Codec<T>, srv: Server<T>, s: SocketId, current: Option<string>,
                              chunk: string, failed: set<SocketId>)
    requires ValidStore(srv.store)
    ensures var o := HandleChunk(codec, srv, s, current, chunk, failed);
            && |srv.store.boards| <= |o.server.store.boards|
            && o.server.store.boards[..|srv.store.boards|] == srv.store.boards
            && srv.store.tasks.Keys <= o.server.store.tasks.Keys
  {
  }

  /** Any command names a board, and an unknown one is created: with an
      empty list unless the command itself is a valid `ADD` or `UPDATE` on
      it. */
  lemma UnknownBoardCreated<T>(codec: Codec<T>, srv: Server<T>, s: SocketId, current: Option<string>,
                               c: Command, failed: set<SocketId>)
    requires ValidStore(srv.store) && c.board !in srv.store.tasks
    requires c.name != "ADD" && c.name != "UPDATE"
    ensures var o := Step(codec, srv, s, current, c, failed);
            && c.board in o.server.store.tasks && o.server.store.tasks[c.board] == []
            && o.server.store.boards == srv.store.boards + [c.board]
  {
  }

  /** A valid `ADD` appends exactly the decoded task to its board and leaves
      every other board alone. */
  lemma AddAppendsOne<T>(codec: Codec<T>, srv: Server<T>, s: SocketId, current: Option<string>,
                         c: Command, failed: set<SocketId>)
    requires ValidStore(srv.store)
    requires c.name == "ADD" && HasPayload(c) && codec.task(c.payload.value).Some?
    ensures var o := Step(codec, srv, s, current, c, failed);
            && c.board in o.server.store.tasks
            && o.server.store.tasks[c.board] == TasksOf(srv.store, c.board) + [codec.task(c.payload.value).value]
            && (forall b :: b in srv.store.tasks && b != c.board ==> o.server.store.tasks[b] == srv.store.tasks[b])
  {
  }

  /** The list a valid `ADD` produces goes to the board's subscribers, which
      include the sender when this command bound it to the board and its
      send succeeds. */
  lemma AddNotifiesSender<T>(codec: Codec<T>, srv: Server<T>, s: SocketId, current: Option<string>,
                             c: Command, failed: set<SocketId>)
    requires ValidStore(srv.store)
    requires c.name == "ADD" && HasPayload(c) && codec.task(c.payload.value).Some?
    requires current != Some(c.board) && s !in failed
    ensures var o := Step(codec, srv, s, current, c, failed);
            c.board in o.server.store.tasks && Delivery(s, TasksReply(c.board, o.server.store.tasks[c.board])) in o.sent
  {
    var st := EnsureBoard(srv.store, c.board);
    var rb := Rebind(srv.clients, s, current, c);
    assert rb.0[|rb.0| - 1] == Subscription(s, c.board);
    AddReachesSubscriber(codec, st, rb.0, s, rb.1, c, failed, s);
  }

  /** A valid `ADD` delivers the board's new list to a socket exactly when
      that socket is subscribed to the board and its send succeeds, and
      sends nothing else. */
  lemma AddReachesSubscriber<T>(codec: Codec<T>, st: Store<T>, clients: seq<Subscription>,
                                s: SocketId, current: Option<string>, c: Command,
                                failed: set<SocketId>, x: SocketId)
    requires ValidStore(st) && c.board in st.tasks
    requires c.name == "ADD" && HasPayload(c) && codec.task(c.payload.value).Some?
    ensures var o := Execute(codec, st, clients, s, current, c, failed);
            && (Delivery(x, TasksReply(c.board, o.server.store.tasks[c.board])) in o.sent <==>
                  Subscription(x, c.board) in clients && x !in failed)
            && (forall d :: d in o.sent ==> d.reply == TasksReply(c.board, o.server.store.tasks[c.board]))
  {
  }

  /** A valid `UPDATE` likewise delivers the board's new list to exactly
      the subscribers of the board whose send succeeds. */
  lemma UpdateReachesSubscriber<T>(codec: Codec<T>, st: Store<T>, clients: seq<Subscription>,
                                   s: SocketId, current: Option<string>, c: Command,
                                   failed: set<SocketId>, x: SocketId)
    requires ValidStore(st) && c.board in st.tasks
    requires c.name == "UPDATE" && HasPayload(c) && codec.taskList(c.payload.value).Some?
    ensures var o := Execute(codec, st, clients, s, current, c, failed);
            && (Delivery(x, TasksReply(c.board, o.server.store.tasks[c.board])) in o.sent <==>
                  Subscription(x, c.board) in clients && x !in failed)
            && (forall d :: d in o.sent ==> d.reply == TasksReply(c.board, o.server.store.tasks[c.board]))
  {
  }

  /** A valid `UPDATE` replaces its board's whole list and leaves every
      other board alone. */
  lemma UpdateReplaces<T>(codec: Codec<T>, srv: Server<T>, s: SocketId, current: Option<string>,
                          c: Command, failed: set<SocketId>)
    requires ValidStore(srv.store)
    requires c.name == "UPDATE" && HasPayload(c) && codec.taskList(c.payload.value).Some?
    ensures var o := Step(codec, srv, s, current, c, failed);
            && c.board in o.server.store.tasks
            && o.server.store.tasks[c.board] == codec.taskList(c.payload.value).value
            && (forall b :: b in srv.store.tasks && b != c.board ==> o.server.store.tasks[b] == srv.store.tasks[b])
  {
  }

  /** `ADD` or `UPDATE` with a missing, empty or undecodable payload changes
      no task list (the board is still created if unknown) and sends
      nothing. */
  lemma BadPayloadChangesNothing<T>(codec: Codec<T>, srv: Server<T>, s: SocketId, current: Option<string>,
                                    c: Command, failed: set<SocketId>)
    requires ValidStore(srv.store)
    requires c.name == "ADD" || c.name == "UPDATE"
    requires || !HasPayload(c)
             || (c.name == "ADD" && codec.task(c.payload.value).None?)
             || (c.name == "UPDATE" && codec.taskList(c.payload.value).None?)
    ensures var o := Step(codec, srv, s, current, c, failed);
            && o.server.store == EnsureBoard(srv.store, c.board)
            && o.sent == []
  {
  }

  /** Only `ADD`, `UPDATE` and `GET_TASKS` touch the subscription list
      (through the re-binding and, for a valid `ADD`/`UPDATE`, the
      broadcast's pruning); any other command, `GET_BOARDS` among them,
      leaves both it and the connection's board alone. */
  lemma OtherCommandsKeepSubscriptions<T>(codec: Codec<T>, srv: Server<T>, s: SocketId, current: Option<string>,
                                          c: Command, failed: set<SocketId>)
    requires ValidStore(srv.store) && c.name !in Subscribing
    ensures var o := Step(codec, srv, s, current, c, failed);
            o.server.clients == srv.clients && o.current == current
  {
  }

  /** `GET_TASKS` binds the connection to the named board and replies with
      that board's list to the sender alone. */
  lemma GetTasksBindsAndReplies<T>(codec: Codec<T>, srv: Server<T>, s: SocketId, current: Option<string>,
                                   c: Command, failed: set<SocketId>)
    requires ValidStore(srv.store) && c.name == "GET_TASKS"
    ensures var o := Step(codec, srv, s, current, c, failed);
            && o.current == Some(c.board)
            && (current != Some(c.board) ==> o.server.clients == AddClientToBoard(srv.clients, s, c.board))
            && (current == Some(c.board) ==> o.server.clients == srv.clients)
            && o.sent == (if s in failed then [] else [Delivery(s, TasksReply(c.board, TasksOf(srv.store, c.board)))])
  {
  }

  /** `GET_BOARDS` creates the board it names if unknown, like every
      command, and replies to the sender alone with the board names in
      creation order, that board included. */
  lemma GetBoardsReplies<T>(codec: Codec<T>, srv: Server<T>, s: SocketId, current: Option<string>,
                            c: Command, failed: set<SocketId>)
    requires ValidStore(srv.store) && c.name == "GET_BOARDS"
    ensures var o := Step(codec, srv, s, current, c, failed);
            var st := EnsureBoard(srv.store, c.board);
            && o.server == Server(st, srv.clients)
            && o.sent == (if s in failed then [] else [Delivery(s, BoardsReply(st.boards))])
  {
  }

  /** No board name the server ever holds contains `:`: the main board has
      none, and a parsed board is the text between the first two colons. */
  ghost predicate ColonFree<T>(st: Store<T>) {
    forall b :: b in st.tasks ==> ':' !in b
  }

  lemma MainBoardColonFree()
    ensures ':' !in MainBoard
  {
    assert forall k :: 0 <= k < |MainBoard| ==> MainBoard[k] != ':';
  }

  /** The command names, and the `TASKS` reply tag, hold no `:`. */
  lemma NamesColonFree()
    ensures ':' !in "ADD" && ':' !in "UPDATE" && ':' !in "GET_TASKS" && ':' !in "GET_BOARDS" && ':' !in "TASKS"
  {
    assert forall k :: 0 <= k < |"GET_TASKS"| ==> "GET_TASKS"[k] != ':';
    assert forall k :: 0 <= k < |"GET_BOARDS"| ==> "GET_BOARDS"[k] != ':';
    assert forall k :: 0 <= k < |"UPDATE"| ==> "UPDATE"[k] != ':';
  }

  lemma {:induction false} BoardsColonFree<T>(codec: Codec<T>, srv: Server<T>, s: SocketId, current: Option<string>,
                                              chunk: string, failed: set<SocketId>)
    requires ValidStore(srv.store) && ColonFree(srv.store)
    ensures ColonFree(HandleChunk(codec, srv, s, current, chunk, failed).server.store)
  {
    var data := Strip(chunk);
    if data != "" && ':' !in data {
      MainBoardColonFree();
    }
  }
}
