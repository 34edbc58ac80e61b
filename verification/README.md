# Heapsort and the upd-TaskManager task-board protocol in Dafny

This project models two programs of the repository and proves properties of
the models.

* **Heapsort** (`Heapsort/heapsort.py`). `heapify(arr, n, i, iterations)`
  sifts one element down a max-heap held in `arr[0..n)`. `heapSort(arr)`
  first builds the heap bottom-up, then repeatedly swaps the root behind the
  heap and restores the heap. It returns the value of a counter that every
  `heapify` call raises by two.
  * `HeapModel` gives the value-level model: sequences in, sequences out,
    with companion functions that count the `heapify` calls.
  * `Heapsort` runs the same algorithm in place on a Dafny array and is
    proved to compute exactly what `HeapModel` describes.
  * Proved: the result is sorted and is a permutation of the input. The
    counter is even, is zero for arrays of length 0 and 1, and is at least
    two per top-level `heapify` call. One `heapify` recurses at most about
    log2(n / (i + 1)) times. `heapify(arr, n, i)` makes the subtree rooted at
    `i` a max-heap when the subtrees of `i`'s children are, and moves nothing
    outside that subtree.
* **The task-board server** (`upd-TaskManager/Task_Server_UPD.py`), in
  module `TaskServer`. A text command `NAME:board[:payload]` is parsed with
  `split(':', 2)`. Every board a command names is created if unknown.
  `ADD`, `UPDATE` and `GET_TASKS` bind the connection to that board. `ADD`
  and `UPDATE` change the board's task list and broadcast it to the board's
  subscribers; a subscriber whose send fails is dropped. `GET_TASKS` and
  `GET_BOARDS` answer the sender alone.
  * One received chunk is one turn of the `handle_client` loop:
    `HandleChunk`, a pure function from the server state to the next state
    plus the replies delivered.
  * The JSON decoders are parameters, and so is the set of sockets whose
    sends fail.
* **The task-board client** (`upd-TaskManager/Task_Client_UPD.py`), in
  module `TaskClient`. It covers:
  * cutting the received stream into `'\n'`-terminated lines;
  * reading a `TASKS:` or `BOARDS:` line as an event;
  * the priority buttons of a task card;
  * the four commands the client sends.
* `Text` models Python's `str.strip()` and `str.split(sep, maxsplit)`, which
  both programs rely on. `Options` is the option type.
* `Protocol` connects the two sides:
  * a command the client sends is the command the server parses;
  * a reply the server sends is the event the client emits;
  * however a line is cut into reads at character boundaries, the client
    frames the same line.

## Model

| member | source | states |
|---|---|---|
| `HeapModel.Largest` | Heapsort/heapsort.py:9-19 | The index `heapify` swaps with. It is `i` exactly when `i` is outside the heap or no child inside `[0, n)` is larger. Otherwise it is a child that is at least as large as `i` and as the other child. |
| `HeapModel.SiftCalls` | Heapsort/heapsort.py:13-23 | The number of `heapify` invocations one call makes, itself included; its growth is bounded by `SiftCallsLogarithmic`, and `Heapify` adds two to the counter for each. |
| `HeapModel.SiftDown` | Heapsort/heapsort.py:8-23 | `heapify` only permutes the array. It leaves every index outside `[i, n)` unchanged. |
| `HeapModel.SiftDownHeap` | Heapsort/heapsort.py:8-23 | The index-range form of heapify's contract that both loops of `heapSort` use. Suppose every node of `[lo, n)` except `i` dominates its children, and `i`'s parent dominates `i`'s children. Then `heapify(arr, n, i)` makes `[lo, n)` a max-heap. |
| `HeapModel.SiftDownSubtree` | Heapsort/heapsort.py:8-23 | If the subtrees rooted at `2i + 1` and `2i + 2` are max-heaps, `heapify(arr, n, i)` makes the subtree rooted at `i` a max-heap, whatever holds elsewhere in the array. |
| `HeapModel.SiftDownOutside` | Heapsort/heapsort.py:21-23 | `heapify(arr, n, i)` leaves every element outside the subtree rooted at `i` where it was. |
| `HeapModel.SubHeapAtRoot` | Heapsort/heapsort.py:33-35 | The subtree rooted at `0` is a max-heap exactly when every node of `[0, n)` dominates its children, so the two forms of heapify's contract agree at the root. |
| `HeapModel.SiftDownBounded` | Heapsort/heapsort.py:8-23 | `heapify` never lets an element of `[0, n)` exceed a bound that all of them were below. |
| `HeapModel.SiftCallsLogarithmic` | Heapsort/heapsort.py:13-23 | With `c` the number of `heapify` invocations started by `heapify(arr, n, i)`, `(i + 1) * 2^(c - 1) <= n`. |
| `HeapModel.HeapRootIsMax` | Heapsort/heapsort.py:33-35 | In a max-heap on `[0, n)`, the root is at least every element of the heap. |
| `HeapModel.BuildHeap` | Heapsort/heapsort.py:30-31 | The first loop of `heapSort` only permutes the array and leaves everything from `n` on unchanged. |
| `HeapModel.BuildHeapIsHeap` | Heapsort/heapsort.py:30-31 | Start from a heap on `[k, n)`. The build loop calls `heapify` for `k - 1` down to `0`, and this makes `[0, n)` a max-heap. |
| `HeapModel.BuildHeapRootIsMax` | Heapsort/heapsort.py:30-31 | After the first loop of `heapSort`, the whole array is a max-heap whose root is its maximum. |
| `HeapModel.SortFrom` | Heapsort/heapsort.py:33-35 | The extraction loop only permutes the array and keeps its length. |
| `HeapModel.ExtractStep` | Heapsort/heapsort.py:33-35 | One turn of the extraction loop keeps its invariant, with the heap one element shorter. The invariant: `[0, k)` is a heap, `[k, len)` is sorted, and no heap element exceeds a suffix element. |
| `HeapModel.SortFromSorts` | Heapsort/heapsort.py:33-35 | The extraction loop, entered with its invariant, leaves the array sorted. |
| `HeapModel.HeapSorted` | Heapsort/heapsort.py:26-35 | The list `heapSort` leaves behind: the build loop followed by the extraction loop. `HeapSortCorrect` proves it sorted and a permutation of the input. |
| `HeapModel.Iterations` | Heapsort/heapsort.py:26-37 | The value `heapSort` returns: two for every `heapify` invocation of both loops. `IterationsBounds` bounds it. |
| `HeapModel.HeapSortCorrect` | Heapsort/heapsort.py:26-37 | `heapSort` leaves the array sorted in non-decreasing order, as a permutation of its input. |
| `HeapModel.IterationsBounds` | Heapsort/heapsort.py:26-37 | The returned counter is even. It is 0 for arrays of length 0 or 1. Otherwise it is at least `2 * (n // 2 + n - 1)`, two for each top-level `heapify` call. |
| `Heapsort.Heapify` | Heapsort/heapsort.py:8-23 | The in-place `heapify` leaves the array that `SiftDown` describes. It adds two to the counter per invocation, the recursive ones included. |
| `Heapsort.BuildMaxHeap` | Heapsort/heapsort.py:30-31 | The first loop leaves the array that `BuildHeap` describes and counts its `heapify` calls. |
| `Heapsort.SortMaxHeap` | Heapsort/heapsort.py:33-35 | The second loop leaves the array that `SortFrom` describes and counts its `heapify` calls. |
| `Heapsort.HeapSortInPlace` | Heapsort/heapsort.py:26-37 | `heapSort(arr)` sorts the caller's array in place into a sorted permutation of its contents, and returns the counter `Iterations`. |
| `Heapsort.HeapSort` | Heapsort/heapsort.py:26-37 | A caller that hands a list to `heapSort` and reads it afterwards finds it sorted and a permutation of what it handed over. The returned counter is `Iterations`, and is 0 for lists of length at most 1. |
| `Text.Strip` | upd-TaskManager/Task_Server_UPD.py:43 | `strip()` returns a slice of its input with no whitespace at either end. Everything it cut off on either side is whitespace. |
| `Text.StripIdempotent` | upd-TaskManager/Task_Client_UPD.py:141 | Stripping twice is stripping once. |
| `Text.Split` | upd-TaskManager/Task_Server_UPD.py:48 | `split(c, maxsplit)` gives between 1 and `maxsplit + 1` parts that join back to the input. No part but the last contains `c`. The last contains `c` only if all `maxsplit` cuts were made. |
| `TaskServer.FormatCommand` | upd-TaskManager/Task_Client_UPD.py:182-195 | The text `NAME:board` or `NAME:board:payload` the client's commands are built as. `ParseFormat` proves the server parses it back. |
| `TaskServer.ParseCommand` | upd-TaskManager/Task_Server_UPD.py:48-51 | The command name never contains `:`. A text without `:` is a command on the main board with no payload. Otherwise the board contains no `:`, and formatting the parsed command gives back the text exactly. |
| `TaskServer.ParseFormat` | upd-TaskManager/Task_Server_UPD.py:48-51 | Parsing inverts formatting when name and board are free of `:`. Together with `ParseCommand`'s contract, the two are inverse. |
| `TaskServer.InitialStore` | upd-TaskManager/Task_Server_UPD.py:11-13 | A new server holds one board, the main board, with no tasks. |
| `TaskServer.InitialServer` | upd-TaskManager/Task_Server_UPD.py:10-13 | A new server has a well-formed store holding the main board, and no subscriptions. |
| `TaskServer.TasksOf` | upd-TaskManager/Task_Server_UPD.py:16 | `self.tasks.get(board, [])`: the board's list, or the empty list for an unknown board. `AddAppendsOne` states ADD's effect through it. |
| `TaskServer.EnsureBoard` | upd-TaskManager/Task_Server_UPD.py:53-56 | An unknown board is added with an empty list at the end of the board order. Existing boards and their lists are untouched, and nothing else is added. |
| `TaskServer.AppendTask` | upd-TaskManager/Task_Server_UPD.py:69 | Appending adds exactly one task at the end of the board's list. Every other board and the board order stay as they were. |
| `TaskServer.ReplaceTasks` | upd-TaskManager/Task_Server_UPD.py:80 | The board's whole list is replaced. Every other board and the board order stay as they were. |
| `TaskServer.RemoveSocketsMembers` | upd-TaskManager/Task_Server_UPD.py:27-30 | Filtering keeps exactly the entries whose socket is not being removed. |
| `TaskServer.RemoveSocketsAppend` | upd-TaskManager/Task_Server_UPD.py:27-30 | Filtering distributes over concatenation, so the kept entries keep their order. |
| `TaskServer.RemoveSocketsAbsent` | upd-TaskManager/Task_Server_UPD.py:27-30 | The list comes back unchanged when none of the removed sockets is in it. |
| `TaskServer.RemoveClient` | upd-TaskManager/Task_Server_UPD.py:27-30 | `_remove_client(s)` leaves exactly the entries of the other sockets. |
| `TaskServer.AddClientToBoard` | upd-TaskManager/Task_Server_UPD.py:32-34 | Afterwards `(s, board)` is the last entry and the only entry of `s`. Entries of other sockets are unaffected. |
| `TaskServer.Subscribers` | upd-TaskManager/Task_Server_UPD.py:20-21 | The sockets that `broadcast_board` sends to are exactly those with an entry for the board. |
| `TaskServer.Deliver` | upd-TaskManager/Task_Server_UPD.py:20-25 | Every delivery carries the board's list. It reaches exactly the targets whose send does not fail. |
| `TaskServer.Broadcast` | upd-TaskManager/Task_Server_UPD.py:15-25 | The board's current list reaches exactly the board's subscribers whose send succeeds. A subscriber whose send fails loses all its entries; every other entry stays. |
| `TaskServer.Rebind` | upd-TaskManager/Task_Server_UPD.py:60-63 | `ADD`, `UPDATE` and `GET_TASKS` make the named board current, and re-subscribe only if it was not current already. Other commands change nothing. |
| `TaskServer.HasPayload` | upd-TaskManager/Task_Server_UPD.py:67 | `if payload:` rejects a missing and an empty payload alike. `BadPayloadChangesNothing` states what follows from it. |
| `TaskServer.RenderReply` | upd-TaskManager/Task_Server_UPD.py:17 | The reply lines `TASKS:board:json` and `BOARDS:json`, also built at lines 104 and 112. `TasksReplyReachesClient` and `BoardsReplyReachesClient` prove the client reads them back. |
| `TaskServer.Execute` | upd-TaskManager/Task_Server_UPD.py:65-92 | Covers the store, the subscriptions and the replies. A valid `ADD` appends the decoded task and a valid `UPDATE` replaces the list. Either then broadcasts the board's new list: exactly the board's subscribers whose send succeeds receive it, nothing else is sent, and a subscriber whose send fails loses all its entries while every other entry stays. A missing, empty or undecodable payload changes nothing and sends nothing. Other commands leave the store and the subscriptions alone, and a command other than `ADD`, `UPDATE`, `GET_TASKS` and `GET_BOARDS` sends nothing. |
| `TaskServer.Step` | upd-TaskManager/Task_Server_UPD.py:53-92 | A parsed command keeps the store well-formed. Boards are only ever appended, and the named board is the only one added. |
| `TaskServer.HandleChunk` | upd-TaskManager/Task_Server_UPD.py:43-99 | The connection stays open exactly when the stripped chunk is non-empty. When it closes, the socket's entries are removed and nothing is sent. |
| `TaskServer.BoardsNeverRemoved` | upd-TaskManager/Task_Server_UPD.py:53-56 | No turn removes or reorders a board. |
| `TaskServer.UnknownBoardCreated` | upd-TaskManager/Task_Server_UPD.py:53-56 | A command other than `ADD` or `UPDATE` on an unknown board creates that board empty, at the end of the order. |
| `TaskServer.AddAppendsOne` | upd-TaskManager/Task_Server_UPD.py:65-70 | A valid `ADD` appends exactly the decoded task to the board's previous list (empty for a new board). Other boards are untouched. |
| `TaskServer.AddNotifiesSender` | upd-TaskManager/Task_Server_UPD.py:60-70 | An `ADD` that binds the connection to its board sends the board's new list back to the sender, provided the sender's send succeeds. |
| `TaskServer.AddReachesSubscriber` | upd-TaskManager/Task_Server_UPD.py:65-70 | After a valid `ADD`, any socket receives the board's new list exactly when it is subscribed to the board and its send succeeds. Nothing else is sent. |
| `TaskServer.UpdateReachesSubscriber` | upd-TaskManager/Task_Server_UPD.py:76-81 | After a valid `UPDATE`, any socket receives the board's new list exactly when it is subscribed to the board and its send succeeds. Nothing else is sent. |
| `TaskServer.UpdateReplaces` | upd-TaskManager/Task_Server_UPD.py:76-81 | A valid `UPDATE` replaces the board's list with the decoded one. Other boards are untouched. |
| `TaskServer.BadPayloadChangesNothing` | upd-TaskManager/Task_Server_UPD.py:65-85 | An `ADD` or `UPDATE` without a usable payload only creates the board if needed, and sends nothing. |
| `TaskServer.OtherCommandsKeepSubscriptions` | upd-TaskManager/Task_Server_UPD.py:60-63 | Any command but `ADD`, `UPDATE` and `GET_TASKS` leaves the subscription list and the current board alone. |
| `TaskServer.GetTasksBindsAndReplies` | upd-TaskManager/Task_Server_UPD.py:102-106 | `GET_TASKS` makes the board current. It sends that board's list to the sender alone, unless that send fails. |
| `TaskServer.GetBoardsReplies` | upd-TaskManager/Task_Server_UPD.py:110-116 | `GET_BOARDS` sends the board names in creation order to the sender alone. The board it names is included, since that board is created first. |
| `TaskServer.BoardsColonFree` | upd-TaskManager/Task_Server_UPD.py:48-56 | No board name the server holds ever contains `:`. |
| `TaskClient.CutLine` | upd-TaskManager/Task_Client_UPD.py:139 | `split('\n', 1)` on a buffer with a newline gives the text up to the first newline, which has no newline, and everything after it. |
| `TaskClient.Frame` | upd-TaskManager/Task_Client_UPD.py:137-139 | The inner loop splits the buffer into newline-free lines and a newline-free rest. Re-terminating the lines and appending the rest gives back the buffer. |
| `TaskClient.FrameUnique` | upd-TaskManager/Task_Client_UPD.py:137-139 | Any well-formed split that reassembles to the buffer is the one the loop computes. |
| `TaskClient.FrameChunks` | upd-TaskManager/Task_Client_UPD.py:134-141 | Data arriving in two reads, with the rest kept in the buffer in between, is framed as if it had arrived at once. |
| `TaskClient.Receive` | upd-TaskManager/Task_Client_UPD.py:129-141 | An empty read ends the loop. Otherwise every complete line of buffer plus data is handed on stripped, in order, and the unterminated rest stays in the buffer. |
| `TaskClient.ProcessMessage` | upd-TaskManager/Task_Client_UPD.py:149-166 | Only `TASKS:` and `BOARDS:` lines produce an event. A tasks event carries a colon-free board and the decoding of the text after the second colon. A boards event carries the decoding of the text after `BOARDS:`. |
| `TaskClient.ProcessTasksMessage` | upd-TaskManager/Task_Client_UPD.py:150-158 | `TASKS:board:json` with a colon-free board is read back as that board and the decoded tasks. An undecodable payload gives no event. |
| `TaskClient.ProcessBoardsMessage` | upd-TaskManager/Task_Client_UPD.py:160-166 | `BOARDS:json` is read back as the decoded list. An undecodable payload gives no event. |
| `TaskClient.Rank` | upd-TaskManager/Task_Client_UPD.py:70-71 | `order.index(p)` is defined exactly for the three ladder priorities, and points at `p`. |
| `TaskClient.IncreasePriority` | upd-TaskManager/Task_Client_UPD.py:69-76 | The priority moves one step up unless already `high`. The server is told exactly when the priority changed and a client is attached. An off-ladder priority is an error. |
| `TaskClient.DecreasePriority` | upd-TaskManager/Task_Client_UPD.py:79-86 | The priority moves one step down unless already `low`, with the same notification rule. |
| `TaskClient.PriorityInverse` | upd-TaskManager/Task_Client_UPD.py:69-86 | Lowering undoes raising below `high`, and raising undoes lowering above `low`. |
| `TaskClient.PrioritySaturates` | upd-TaskManager/Task_Client_UPD.py:69-86 | The ends are fixed points that send nothing. Two presses reach the end from anywhere. |
| `TaskClient.Send` | upd-TaskManager/Task_Client_UPD.py:169-178 | Text goes on the wire only while running and when the send succeeds. Then it is the message followed by `'\n'`, which frames as exactly that one line. A failed send stops the client. |
| `TaskClient.TaggedCommand` | upd-TaskManager/Task_Client_UPD.py:181-186 | `add_task` and `update_tasks` send `ADD:board:json` and `UPDATE:board:json`. With a colon-free board, the server parses the text back as that command on that board with the JSON as payload. |
| `TaskClient.GetTasksCommand` | upd-TaskManager/Task_Client_UPD.py:189-192 | A non-empty board name becomes current, while a missing or empty one keeps the current board. If the resulting board name holds no `:`, the server parses the text as `GET_TASKS` on that board. |
| `TaskClient.GetBoardsCommand` | upd-TaskManager/Task_Client_UPD.py:194-195 | The server parses the text as `GET_BOARDS` on a board named `ALL`. |
| `Protocol.AddTaskReachesServer` | upd-TaskManager/Task_Client_UPD.py:181-182 | If the board name holds no `:` and the line fits one `recv(1024)`, that is, its UTF-8 encoding is at most 1024 bytes, then after the newline terminator and the server's `strip()` `add_task` arrives as the same `ADD` command. |
| `Protocol.UpdateTasksReachesServer` | upd-TaskManager/Task_Client_UPD.py:185-186 | If the board name holds no `:` and the line is at most 1024 bytes of UTF-8, `update_tasks` arrives at the server as the same `UPDATE` command. |
| `Protocol.GetTasksReachesServer` | upd-TaskManager/Task_Client_UPD.py:189-192 | If the client's new current board holds no `:` and no surrounding whitespace, `get_tasks` arrives at the server as `GET_TASKS` on that board. |
| `Protocol.AddTaskEndToEnd` | upd-TaskManager/Task_Server_UPD.py:43-70 | If the board name holds no `:` and the line is at most 1024 bytes of UTF-8, a decodable `add_task` appends exactly that task to the board on the server, and makes it the connection's current board. |
| `TaskClient.CreateNewBoard` | upd-TaskManager/Task_Client_UPD.py:462-469 | Models the dialog as written. A board is created exactly when the dialog was accepted and the stripped name is not blank, and the new current board is the stripped name, which the server's `strip()` leaves unchanged. No check on `:` is made. The `get_boards()` call that follows is `GetBoardsCommand`. |
| `TaskClient.CreateNewBoardAcceptsColon` | upd-TaskManager/Task_Client_UPD.py:462-469 | The dialog as written accepts a three-character name such as `a:b` whose outer characters are not whitespace. |
| `TaskClient.CreateNewBoardMisparsed` | upd-TaskManager/Task_Client_UPD.py:462-469 | Whenever the dialog accepts a name holding `:`, the server does not parse the `GET_TASKS` line it sends as `GET_TASKS` on that board. |
| `TaskClient.CreateNewBoardChecked` | upd-TaskManager/Task_Client_UPD.py:462-469 | The corrected dialog. It creates a board exactly when the dialog was accepted and the stripped name is neither blank nor holds `:`. The board is then the stripped name, which stripping again leaves unchanged, and the server parses the line as `GET_TASKS` on it. |
| `Protocol.CreatedBoardReachesServer` | upd-TaskManager/Task_Client_UPD.py:462-469 | With the corrected dialog, the newline-terminated line that the client sends arrives after the server's `strip()` as `GET_TASKS` on the stripped name. |
| `Protocol.GetBoardsReachesServer` | upd-TaskManager/Task_Client_UPD.py:194-195 | `get_boards` arrives at the server as `GET_BOARDS:ALL`. |
| `Protocol.GetBoardsCreatesAllBoard` | upd-TaskManager/Task_Server_UPD.py:53-56 | On a server without an `ALL` board, `get_boards` creates an empty board named `ALL`. The reply lists it last. |
| `Protocol.TasksReplyReachesClient` | upd-TaskManager/Task_Client_UPD.py:149-158 | A `TASKS` reply with a clean encoding is framed as one line and emitted as the same board and tasks. This assumes the decoder inverts the encoder. |
| `Protocol.BoardsReplyReachesClient` | upd-TaskManager/Task_Client_UPD.py:160-166 | A `BOARDS` reply is framed as one line and emitted as the same board list. |
| `Protocol.ReplyInTwoReads` | upd-TaskManager/Task_Client_UPD.py:134-141 | Wherever the stream cuts a reply line into two reads at a character boundary, the client frames exactly that line. |

## Left out

- Sockets, threads, the server lock and the `accept` loop are not modelled. One `recv` is taken to return exactly one command, so commands that arrive glued together or split across reads are not covered. UTF-8 decoding is not modelled either. The interleaving of several client threads is out of scope; each model step is one turn of one `handle_client` thread, as if the lock covered the whole turn.
- The JSON encoders and decoders are parameters. The model does not cover an `UPDATE` payload that decodes to something other than a list, nor the later `append` failure that such a value would cause.
- A send that fails is a parameter: the set of failing sockets. The server's error printing and the client's `print` calls have no counterpart.
- The client's Qt widgets, `apply_priority_style`, the signals' delivery to the window, `connect`, `disconnect`'s socket close and the `running` flag's thread handling are not modelled. `Receive` returns the stripped lines instead of calling `process_message` on each.
- The benchmarking code of Heapsort/heapsort.py (`generate_test_data`, `run_tests`, timing, plots, tables) is not modelled. The arrays hold integers rather than arbitrary comparable values.
- Protocol.AddTaskReachesServer: holds only when the line fits one `recv(1024)` at Task_Server_UPD.py:43. The server cuts a longer line at 1024 bytes and strips and parses each piece as a command of its own. The head then carries an undecodable payload and the change is lost, and a later piece that holds a `:` creates a junk board. The model has no byte lengths, so this hypothesis is not stated in the Dafny contract. The board name must also hold no `:`, which the contract does require; see Findings.
- Protocol.UpdateTasksReachesServer: the same 1024-byte hypothesis, and the board name must hold no `:`. It matters most here, because `update_tasks` sends the board's whole list, and `json.dumps` writes each non-ASCII character as a six-byte escape, so about ten tasks with Cyrillic text already exceed it.
- Protocol.AddTaskEndToEnd: the same 1024-byte hypothesis as `AddTaskReachesServer`, and the board name must hold no `:`.
- Protocol.GetTasksReachesServer: holds only for a board name without `:` and without surrounding whitespace. `create_new_board` lets a `:` through; see Findings.
- TaskClient.GetTasksCommand: the parse is promised only for a board name without `:`. With a `:`, the server splits the name and reads a different board.
- TaskServer.AddNotifiesSender: the lemma is stated only for an `ADD` that (re)binds the connection. On an already-bound connection, a failed broadcast may earlier have dropped the sender's entry, so in that case the sender is not promised a reply.
- Protocol.ReplyInTwoReads: covers cuts at character boundaries only. The client decodes each `recv` on its own, so a read that ends inside a multi-byte UTF-8 character raises `UnicodeDecodeError`, which ends the receive loop. The server writes board names unescaped into `TASKS:` lines, and the default board name is Cyrillic, so such cuts can occur. The model works on characters, not bytes.
- Text.Split: only one-character separators are modelled. These are the only separators both programs use.

## Findings

| source | as written | input that shows it | evidently intended | confidence | as-written member | corrected member |
|---|---|---|---|---|---|---|
| upd-TaskManager/Task_Client_UPD.py:462-469 | `create_new_board` strips the name and refuses only a blank one. It then sends `GET_TASKS:<name>`, and the server splits that line on `:`. | The board name `a:b`: the server reads board `a` with payload `b`, so the new board is never created under the name the client shows. | Refuse names that hold `:`, as the protocol uses it as the field separator. | not executed | `TaskClient.CreateNewBoardMisparsed` (with `TaskClient.CreateNewBoardAcceptsColon` as the witness) | `TaskClient.CreateNewBoardChecked` (with `Protocol.CreatedBoardReachesServer`) |
