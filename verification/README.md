# pglite-build: the wire loop, its transport and its small algorithms, in Dafny

This project models the hand-written C of pglite-build that sits between PostgreSQL and
its WebAssembly host, and proves what that code keeps over whole runs.

* **The wire loop.** `interactive_one()` takes a packet of frontend messages out of shared
  memory or a file, dispatches them through the switch of `pg_proto.c`, recovers from errors
  by long jump, decides when ReadyForQuery goes out, and tells the host where the reply is.
  `WireLoop` is one call as a function; `ProtocolLaws` holds the message flow of the
  protocol written down independently and the laws that connect the two, `SkipLaws` what
  happens between an error and the Sync and at the end of a session; `SwitchTable` says over
  type bytes what each message does; `Handshake` adds startup and password packets and what
  the loop does before the client is authenticated;
  `CallModel` is one call turn by turn on the bytes of its buffer, which its own replies may
  overwrite; `Backend` is the imperative code over the buffers, proved against it; `Runs`
  joins both ends, up to a whole connection from its startup packet on.
* **The byte transport.** `Transport` is the patched `pqcomm.c` over one linear memory:
  request and reply share its low part, an oversized reply spills into a file, an oversized
  request is streamed. `LinearMemory` says what a copy does to bytes in its way. `Messages`
  is the framing of the Frontend/Backend Protocol.
* **The signal-mask emulation.** `SignalSets`, `SignalModel` and `SignalPort` follow
  `sdk_port-wasi.c`; the reference is `sigprocmask()` in POSIX.1-2017, System Interfaces.
* **Smaller algorithms.** `CommandFeed` (the splitter of `interactive_file`), with
  `CommandExecution` and `InteractiveFile` for the commands it refuses, `ShellQuote`
  (POSIX.1-2017, Shell Command Language, sections 2.2.2 and 2.2.3), `Dictionary` and
  `PackedArgv`.

## How to read the model

The SQL engine is a parameter: a function from a database state and a message to a new
state, reply messages, and done or failed (`SqlEngine`). A failed outcome includes the
ErrorResponse and the transaction abort of `clear_error`; the long jump is a result value.
The engine also provides the text of the error for a malformed message, and the parameter
messages and the cancel key that follow a password. Groups of C globals that belong together
are records (`Receive` is PqRecvBuffer, PqRecvPointer and PqRecvLength, `Flags` the database
with the four protocol flags), and ghost fields hold the byte sequences the buffers stand for. `Backend` and `PqComm` are the
objects those globals form.

`SocketBackend` and `pq_getmessage` belong to PostgreSQL and are not in the repository; they
are modelled from the protocol's "Message Formats": a type byte, an Int32 length, the body.
As in PostgreSQL, PqCommReadingMsg stays set when the reading stops before the end of a
message, and `pfree(NULL)` is a fault. `ProcessStartupPacket` is the stub of `pgl_stubs.h`:
it accepts every packet and reads none of it. The two lines the pqcomm patch does not show in
`pq_startmsgread` are taken to reset PqSendPointer. The 17.5 patch of `pqcomm.c` has the same
transport code; but the 17.5 tree also patches `elog.c` so that FATAL does not end the
process, so the results that end in `Fatal` hold for 17.4 only.

The host of `Exchange` and `Run` reads a reply where `interactive_read()` and `get_channel()`
say it is. The page in `repl.html` does not: over shared memory it never looks at the file,
so it misses every reply that spilled.

## What the proofs say about the code

* Cutting a message stream into packets is invisible to the client **if and only if** no
  ReadyForQuery that is owed after a failing Query, FunctionCall or Sync is overrun by a
  later message of the same packet (only Flush and late COPY messages are harmless there),
  and at most nine failing messages of a packet have data behind them. `BatchingCanLoseReady`
  is a three-message packet that loses two of three ReadyForQuery messages.
* A drained shared request is rewound by `pq_startmsgread`, so it is only the loop guard
  that keeps it from being read twice; with the guard, the messages taken are exactly the
  parse of the packet although replies are written into the same memory.
* A call that reads its own packet leaves the idle state, from which the next call reads its
  own, **if and only if** the packet is whole messages with nothing behind an X (`IdleIff`).
  After a message that is cut short or has an impossible length the call returns as if the
  client had left, but every later call that reads a message dies in `pq_startmsgread`.
  After bytes left behind an X, the next call on shared memory reads these, as far as its own
  packet does not overwrite them, and replies where the send buffer was left
  (`InteractiveOne`, `Pending`).
* A startup packet sent as a file stays in the receive buffer, which is at address 1 once a
  request came over shared memory. The next call reads its own packet **if and only if**
  that is a file, too, or is as long as a startup packet at address 1 (`StartupThen`). A login
  succeeds **if and only if** the second call reads the whole password: unless it comes over
  shared memory after a startup in a file that is not at address 1 (the process dies), or is
  there but shorter (the code frees NULL) (`Login`).
* Such a startup packet lies clear of the send buffer **if and only if** it has at most n + 1
  bytes, behind a shared request of n bytes (`SayHello`). Else the replies of the next shared
  call overwrite bytes it has yet to read: `ReadsItsOwnReply` is a call that takes its own
  ReadyForQuery for a message. Where no reply lands on unread bytes, and only there is this
  promised, a call is the functional one (`LoopAside`, `PasswordAside`).
* After an error in an extended-query message nothing is dispatched before the Sync, and
  nothing is sent, **if and only if** no ReadyForQuery is owed when the message fails: unless
  the message right in front of it in its packet failed, too, and the packet ends before the
  Sync (`ErrorSkipsUntilSync`, `SyncInSamePacket`). `ReadyWhileSkipping` is such a packet.
* An X, or an EOF, ends the call with the replies to the messages in front of it. A
  ReadyForQuery that is owed is not sent, the skip until Sync is over (`EndsSession`), and
  what is behind an X stays in the buffer for the next call to read (`Leave`).
* While the client authenticates, messages are dispatched as ever and only the ReadyForQuery
  of `wire_flush` is withheld (`AuthWithholdsOne`). None goes out **if and only if** in no
  packet a successful Query, FunctionCall or Sync has a message behind it, nor a Flush or late
  COPY message that succeeds over an owed ReadyForQuery (`SilentWhileAuthenticatingIff`).
* Password retries may share a packet exactly as long as at most nine fail
  (`RetriesInOnePacketIff`). A password message that cannot be read, or a bad password in a
  request file, is not survived: the code frees NULL, or jumps into a frame that is gone.
  Over shared memory its error starts a skip until Sync if the last message before was an
  extended-query one, because nothing resets that flag (`TryPassword`).
* The reply lies in shared memory exactly when it fits behind the request; otherwise all of
  it is in the published file and `get_channel()` is -1. That test is an unsigned comparison:
  behind a request that leaves less than two bytes of the shared part it does not stop the
  copy (`StopsInTimeIff`).
* `sigprocmask` restores a saved mask and the whole handler table after any run in between,
  nested or not, and delivers a blocked signal exactly once if it arrived at all; signals
  that one call unblocks are delivered in their order.
* `interactive_file` executes the last command of its feed also when nothing ends it.

## Model

| member | source | states |
|---|---|---|
| Messages.EncodeOfParseAll | pglite-REL_17_4_WASM/interactive_one.c:610-612 | the messages taken from a packet without EOF, put side by side, are the packet: no byte skipped, repeated or shared |
| Messages.EncodeAllInjective | pglite-REL_17_4_WASM/interactive_one.c:345-361 | reply bytes determine the reply messages, so equal byte streams are equal replies |
| Messages.NextInputInBytes | pglite-REL_17_4_WASM/interactive_one.c:610-612 | for any bytes: what is a message, what is cut short and what is an impossible length, with the length word as a big-endian Int32 that counts itself, and the bytes left in each case |
| Messages.EncodeInBytes | pglite-REL_17_4_WASM/interactive_one.c:345-361 | a written message is its type byte, that length and its body |
| ProtocolLaws.BatchIsProtocolIff | pglite-REL_17_4_WASM/interactive_one.c:581-661 | one packet gives the database, skip state, dispatches and replies of the protocol exactly when at most nine failures have data behind them and no owed ReadyForQuery is overrun |
| ProtocolLaws.BatchIsProtocol | pglite-REL_17_4_WASM/interactive_one.c:581-661 | the sufficient half, for any engine whatever it replies |
| ProtocolLaws.BatchReplyBytesIff | pglite-REL_17_4_WASM/interactive_one.c:581-712 | the same equivalence for the bytes on the wire |
| ProtocolLaws.BatchingCanLoseReady | pglite-REL_17_4_WASM/pgl_sjlj.c:65-70 | a concrete packet (two failing Queries and a Sync) for which batching loses ReadyForQuery messages |
| ProtocolLaws.RunIsProtocol | pglite-REL_17_4_WASM/interactive_one.c:370-748 | a run of calls, one packet each, is the protocol on the concatenated messages, call after call |
| ProtocolLaws.OneByOneIsProtocol | pglite-REL_17_4_WASM/interactive_one.c:573-661 | one message per call is the protocol without any condition on failures |
| ProtocolLaws.RecuttingIsInvisible | pglite-REL_17_4_WASM/interactive_one.c:573-661 | two ways to cut the same messages into packets give the same result |
| ProtocolLaws.ReadyForQueryCount | pglite-REL_17_4_WASM/pg_proto.c:58-270 | never more ReadyForQuery than dispatched Query, FunctionCall and Sync messages, and as many exactly when none is dispatched over an owed one |
| ProtocolLaws.ProtocolReadyCount | pglite-REL_17_4_WASM/interactive_one.c:641-661 | in the protocol itself the two counts are equal |
| ProtocolLaws.AbortIff | pglite-REL_17_4_WASM/pgl_sjlj.c:65-70 | abort() is reached exactly when a tenth failing message still has data behind it; otherwise the call returns with the protocol's database, skip state and dispatches |
| SwitchTable.OneMessage | pglite-REL_17_4_WASM/pg_proto.c:6-342 | over type bytes: a call on one message outside the skip is FATAL exactly for an unknown type, an error starts the skip exactly in P, B, E, C, D and H, and a ReadyForQuery follows exactly behind Q, F and S and never in authentication |
| SwitchTable.LastOfPacket | pglite-REL_17_4_WASM/pg_proto.c:6-342 | over type bytes: how the last message of any packet ends the call: FATAL, the skip, and the ReadyForQuery, by its type and by whether the message right in front of it failed, with the database and dispatches of the protocol |
| SwitchTable.LastMessage | pglite-REL_17_4_WASM/pg_proto.c:6-342 | the same for the last message of a packet from any flags: which types withdraw, send or owe a ReadyForQuery, and what X does |
| SwitchTable.MessageInFront | pglite-REL_17_4_WASM/interactive_one.c:581-648 | the same for a message with others behind it, with the flags the next one finds and the abort at the tenth error |
| SkipLaws.SkipsInFront | pglite-REL_17_4_WASM/interactive_one.c:625-637 | while skipping, known messages other than Sync and Terminate in front of a packet change nothing, whatever follows |
| SkipLaws.SkippedCallsVanish | pglite-REL_17_4_WASM/interactive_one.c:625-637 | while skipping, whole calls of such messages neither dispatch, reply nor change the session |
| SkipLaws.DriveThrough | pglite-REL_17_4_WASM/interactive_one.c:581-648 | the loop on a packet is the loop on what is behind its first messages, from the flags, recoveries and replies these lead to, or abort() when they recover too often |
| SkipLaws.OwedBehind | pglite-REL_17_4_WASM/interactive_one.c:261-279 | in the middle of a packet, outside the skip, a ReadyForQuery is owed exactly when the message just before failed |
| SkipLaws.SyncInSamePacket | pglite-REL_17_4_WASM/interactive_one.c:261-279 | an error in an extended-query message anywhere in a packet and the Sync behind it: nothing in between is dispatched or answered, the next byte is the reply to the Sync, and one ReadyForQuery follows, or is owed if the Sync failed |
| SkipLaws.ErrorSkipsUntilSync | pglite-REL_17_4_WASM/interactive_one.c:261-279 | the error anywhere in its packet, the Sync anywhere in a later one: nothing is dispatched in between, and nothing is sent, exactly when no ReadyForQuery is owed at the error or the client authenticates; else that one ReadyForQuery |
| SkipLaws.SyncEndsSkip | pglite-REL_17_4_WASM/interactive_one.c:625-637 | a successful Sync is answered by its replies and one ReadyForQuery, whatever was owed, and ends the skip |
| SkipLaws.ReadyWhileSkipping | pglite-REL_17_4_WASM/interactive_one.c:261-279 | a concrete packet for which a ReadyForQuery goes out while the loop skips |
| SkipLaws.EndsSession | pglite-REL_17_4_WASM/pg_proto.c:286-323 | at an X or EOF, wherever it stands, the call ends with the replies, dispatches and database of the messages in front: a ReadyForQuery that is owed is never sent, the skip is over, and nothing behind it is read |
| SkipLaws.OwedAtTheEnd | pglite-REL_17_4_WASM/pg_proto.c:317-318 | a concrete packet, a failing Query and an X, that is answered by the ErrorResponse alone |
| WireLoop.ProgressByTurn | pglite-REL_17_4_WASM/interactive_one.c:581-648 | in the middle of a call, one more turn of the loop continues what was taken, sent and dispatched so far to the result of the whole call |
| WireLoop.WellFramedIff | pglite-REL_17_4_WASM/interactive_one.c:581-648 | the loop reads a packet to its end at a message boundary exactly when it parses into messages only and nothing follows an X |
| WireLoop.ExtendedFlagIsFresh | pglite-REL_17_4_WASM/interactive_one.c:261-262 | the flag a previous call left in doing_extended_query_message never matters |
| Handshake.RetriesInOnePacketIff | pglite-REL_17_4_WASM/interactive_one.c:321-366 | bad passwords and then a good one: one packet gives the same replies, flags and database as one call each exactly when at most nine are bad |
| Handshake.BadPasswordsInFront | pglite-REL_17_4_WASM/pgl_sjlj.c:65-70 | bad passwords in front of any bytes leave the flags and send the replies of their errors, and the tenth aborts |
| CallModel.StaleTurn | pglite-REL_17_4_WASM/pg_proto.c:337-341 | a startup packet that the loop or the password code reads as a message is FATAL, or is left unfinished; nothing is dispatched or sent |
| CallModel.TurnByType | pglite-REL_17_4_WASM/interactive_one.c:610-637 | the first byte of a message decides whether the turn is FATAL, and what doing_extended_query_message is behind it |
| CallModel.LoopAside | pglite-REL_17_4_WASM/interactive_one.c:573-661 | the turns of a call whose replies do not land on unread bytes are the loop on the parse of its request: result, bytes left, and messages taken |
| CallModel.PasswordAside | pglite-REL_17_4_WASM/interactive_one.c:601-605 | the same for the turns of the password code |
| CallModel.PathFirst | pglite-REL_17_4_WASM/interactive_one.c:581-648 | a call is its first turn and then a call on what that turn leaves, or ends with it |
| LinearMemory.WrittenTwice | patches-REL_17_4_WASM/postgresql-pglite/src-backend-libpq-pqcomm.c.diff:170-195 | two appended pieces of a reply change memory as one does, also when the file takes over in between |
| LinearMemory.WrittenLands | patches-REL_17_4_WASM/postgresql-pglite/src-backend-libpq-pqcomm.c.diff:170-190 | a byte that is still unread changes exactly where the send buffer takes reply bytes over it |
| Handshake.AuthWithholdsOne | pglite-REL_17_4_WASM/interactive_one.c:649-667 | a call during authentication is the call outside it, but for at most the one last ReadyForQuery |
| Handshake.SilentFrom | pglite-REL_17_4_WASM/interactive_one.c:641-667 | while the client authenticates, a packet from any state sends no ReadyForQuery exactly when it is quiet inside |
| Handshake.SilentWhileAuthenticatingIff | pglite-REL_17_4_WASM/interactive_one.c:641-667 | the same over whole runs of packets that do not abort |
| Handshake.SilentWhileAuthenticating | pglite-REL_17_4_WASM/interactive_one.c:649-667 | one message per call, no ReadyForQuery goes out before the client is authenticated, while database, skip state and dispatches are the protocol's |
| Handshake.ReadyBeforeAuthentication | pglite-REL_17_4_WASM/interactive_one.c:641-646 | a concrete packet of two messages for which one does go out |
| Transport.PqComm.FreadToBuffer | patches-REL_17_4_WASM/postgresql-pglite/src-backend-libpq-pqcomm.c.diff:45-47 | the buffer starts with the next bytes of the file, the rest is still ahead |
| Transport.PqComm.RecvBufFill | patches-REL_17_4_WASM/postgresql-pglite/src-backend-libpq-pqcomm.c.diff:95-114 | buffered bytes plus the bytes still in the file are the file |
| Transport.PqComm.RecvBuf | patches-REL_17_4_WASM/postgresql-pglite/src-backend-libpq-pqcomm.c.diff:39-56 | a refill behind a drained buffer keeps the undelivered bytes; EOF exactly when there are none |
| Transport.PqComm.GetByte | patches-REL_17_4_WASM/postgresql-pglite/src-backend-libpq-pqcomm.c.diff:39-56 | takes the head of the undelivered bytes, or reports EOF exactly when there are none |
| Transport.PqComm.ReceiveFile | patches-REL_17_4_WASM/postgresql-pglite/src-backend-libpq-pqcomm.c.diff:43-109 | successive reads deliver a file of any length in order, then EOF |
| Transport.PqComm.GetMessage | patches-REL_17_4_WASM/postgresql-pglite/src-backend-libpq-pqcomm.c.diff:39-56 | takes the frame in front of the undelivered bytes across refills, and ends the message exactly when the frame is whole |
| Transport.PqComm.StartMsgRead | patches-REL_17_4_WASM/postgresql-pglite/src-backend-libpq-pqcomm.c.diff:121-149 | FATAL exactly inside a message; with unread bytes nothing moves; with a drained buffer both buffers point at the shared request and the place behind it, or at the private ones |
| Transport.PqComm.PutBytes | patches-REL_17_4_WASM/postgresql-pglite/src-backend-libpq-pqcomm.c.diff:156-197 | the reply grows by exactly the bytes given, in the send buffer or in the file, spills exactly when the buffer is too small, and changes memory exactly where the buffer takes bytes |
| Transport.PqComm.PutReply | patches-REL_17_4_WASM/postgresql-pglite/src-backend-libpq-pqcomm.c.diff:156-197 | the same for all messages of an answer; unread bytes in its way become reply bytes |
| Transport.StopsInTimeIff | patches-REL_17_4_WASM/postgresql-pglite/src-backend-libpq-pqcomm.c.diff:174-181 | with the unsigned comparison, the copy of a reply stops at the end of the shared part exactly when the request ends at least two bytes before it |
| Transport.PqComm.CopyOver | pglite-REL_17_4_WASM/repl.html:906-907 | a packet written to memory changes what is left of an older request exactly where it overlaps it |
| Transport.PqComm.PutShared | patches-REL_17_4_WASM/postgresql-pglite/src-backend-libpq-pqcomm.c.diff:170-190 | the copying loop loses no byte: what it does not place is left over for the file, behind the whole memory content |
| Transport.PqComm.Flush | patches-REL_17_4_WASM/postgresql-pglite/src-backend-libpq-pqcomm.c.diff:199-207 | flushing never loses reply bytes |
| Backend.Backend.SocketBackend | pglite-REL_17_4_WASM/interactive_one.c:610-612 | takes exactly the next message of the unread bytes, sets the flags its type sets, and on the first read of a shared request places the reply two bytes behind it |
| Backend.Backend.LoopBody | pglite-REL_17_4_WASM/interactive_one.c:581-661 | one turn from any state: the message read, what is sent and dispatched, the flags, and the bytes left as the reply leaves them; by its type byte it is FATAL as `TurnByType` says |
| Backend.Backend.ClearError | pglite-REL_17_4_WASM/interactive_one.c:228-280 | reports the error and either starts skipping to Sync or owes a ReadyForQuery; a failing handler never meets its FATAL |
| Backend.Backend.Dispatch | pglite-REL_17_4_WASM/pg_proto.c:6-342 | sends the replies of the one arm that applies and leaves the flags of the functional switch, whose effects by type `SwitchTable` states; unknown types are FATAL; X and EOF send nothing, clear ignore_till_sync and send_ready_for_query, and go to wire_flush |
| Backend.Backend.Recover | pglite-REL_17_4_WASM/pgl_sjlj.c:65-70 | resumes the loop nine times a call while data remains, aborts the tenth time, goes to wire_flush without data |
| Backend.Backend.MessageLoop | pglite-REL_17_4_WASM/interactive_one.c:573-648 | the loop terminates; it is a sequence of such turns, each of which finds what the one before left |
| Backend.Backend.Publish | pglite-REL_17_4_WASM/interactive_one.c:669-712 | the whole reply is found through channel and cma_wsize or in the renamed file; SOCKET_DATA is 0 and the reply file closed or empty |
| Backend.Backend.WireFlush | pglite-REL_17_4_WASM/interactive_one.c:649-712 | adds the ReadyForQuery still owed, outside authentication, and publishes; the reply is in the file exactly when it does not fit; unread bytes are seen through it |
| Backend.Backend.Cleanup | pglite-REL_17_4_WASM/interactive_one.c:733-748 | freeing the request keeps the published reply and the bytes left unread |
| Backend.Backend.DiscardInput | pglite-REL_17_4_WASM/interactive_one.c:282-290 | takes as many bytes as the request has, which drains a buffer that is pointed at it although a drained one is rewound, and leaves a file alone |
| Backend.Backend.StartupAuth | pglite-REL_17_4_WASM/interactive_one.c:292-319 | asks for the password whatever the packet holds, and leaves a startup packet in a file unread |
| Backend.Backend.Greet | pglite-REL_17_4_WASM/pgl_stubs.h:86-91 | a call whose packet starts with 0 is always answered, and begins the authentication |
| Backend.Backend.PasswordLoop | pglite-REL_17_4_WASM/interactive_one.c:601-605 | startup_pass with the errors that come back to it, turn by turn: replies, flags, bytes left, and the ways the process can be lost |
| Backend.Backend.InteractiveOne | pglite-REL_17_4_WASM/interactive_one.c:370-748 | a call on shared memory, in any state a call leaves: it reads its packet, or what is left of an older request, and ends as its turns on that say: exit, session, reply bytes and their place, bytes left, even where replies overwrite them; after an unfinished message it is FATAL |
| Backend.Backend.ServedClear | pglite-REL_17_4_WASM/interactive_one.c:573-748 | where no reply lands on unread bytes, the call ends as the functional call on the parse of its request, and takes exactly its messages |
| Backend.Backend.CheckedInClear | pglite-REL_17_4_WASM/interactive_one.c:601-605 | and a password call as the functional password call |
| Backend.Backend.ClearIsAside | pglite-REL_17_4_WASM/interactive_one.c:573-748 | that is so in every state whose unread bytes are clear of the send buffer, and in every drained one |
| Backend.Backend.IdleIff | pglite-REL_17_4_WASM/interactive_one.c:733-748 | a call that reads its own packet ends idle exactly when the packet is whole messages with nothing behind an X |
| Backend.Backend.InteractiveOneFile | pglite-REL_17_4_WASM/interactive_one.c:474-534 | the same for a request file that fits the receive buffer, whatever was left there, with the reply always in the published file; a startup packet stays unread and is answered even after an unfinished message |
| Backend.Backend.Exchange | pglite-REL_17_4_WASM/interactive_one.c:33-44 | for a host that follows get_channel() and interactive_read(): what a call on a packet reads, by either way and in any state, how it ends, and that the encoded reply is read back if the send buffer is where the host looks |
| Backend.Backend.Run | pglite-REL_17_4_WASM/interactive_one.c:33-44 | the same for any run of packets over both ways, with the session carried along |
| Runs.RunMessages | pglite-REL_17_4_WASM/interactive_one.c:370-748 | for any cut of the messages into packets that meets the batching condition, and any choice of the way for each, the bytes read back over the run are the protocol's replies to the messages one by one |
| Runs.Leave | pglite-REL_17_4_WASM/interactive_one.c:573-748 | for messages with an X or EOF behind them, over either way: the host reads back the replies to the messages and nothing more; the skip is over, what follows the X is left in the buffer, and an EOF leaves the message unfinished |
| Runs.SayHello | pglite-REL_17_4_WASM/interactive_one.c:292-319 | any startup packet is answered by the request for a password; one in a file is left whole, and after a shared request of n bytes it is clear of the send buffer exactly when it has at most n + 1 bytes |
| Runs.ClearAfterShared | pglite-REL_17_4_WASM/interactive_one.c:573-748 | a call on its own shared packet leaves no unread byte under the send buffer |
| Runs.StartupThen | pglite-REL_17_4_WASM/interactive_one.c:474-534 | after a startup packet in a file, the next call reads its own packet exactly when that is a file, or as long as a startup packet at address 1; what it reads otherwise; and that it dispatches and answers nothing where its packet is not read at all |
| Runs.ReadsItsOwnReply | patches-REL_17_4_WASM/postgresql-pglite/src-backend-libpq-pqcomm.c.diff:170-190 | a concrete call whose ReadyForQuery overwrites unread bytes and is taken for the next message |
| Runs.TryPassword | pglite-REL_17_4_WASM/interactive_one.c:321-366 | a call on one message of type p in every case: the welcome byte by byte, the ErrorResponse with or without a ReadyForQuery, or the fault of the process, by what the text holds, its length and its way |
| Runs.Login | pglite-REL_17_4_WASM/interactive_one.c:282-366 | how the two packets of a login end in every case, by their ways, their lengths and the place of the startup packet; when the replies are the request with its salt, AuthenticationOk, the parameters, the process id and then the key, and one ReadyForQuery, byte by byte; and when the next call can begin idle |
| Runs.Connect | pglite-REL_17_4_WASM/interactive_one.c:282-748 | over a whole connection, what the client reads is the bytes of a login as above, and then the protocol's replies to its messages, however they are cut and sent |
| SignalSets.SigFillSet | wasm-build/sdk_port-wasi/sdk_port-wasi.c:118-122 | exactly the signals below NSIG |
| SignalSets.SigAddSet | wasm-build/sdk_port-wasi/sdk_port-wasi.c:124-141 | EINVAL exactly out of range; otherwise exactly that signal is added |
| SignalSets.SigDelSet | wasm-build/sdk_port-wasi/sdk_port-wasi.c:143-160 | EINVAL exactly out of range; otherwise exactly that signal is removed |
| SignalSets.AddThenDelete | wasm-build/sdk_port-wasi/sdk_port-wasi.c:124-160 | adding a signal that was absent and deleting it gives the byte back |
| SignalPort.SignalPort.RunBlockedHandler | wasm-build/sdk_port-wasi/sdk_port-wasi.c:162-174 | only marks the signal as pending |
| SignalPort.SignalPort.SigProcMask | wasm-build/sdk_port-wasi/sdk_port-wasi.c:176-244 | the byte mask and the three arrays end at the set-theoretic result with the received signals raised last; the old mask is returned; abort() exactly when a signal to unblock cannot get its handler back or has lost blocked_handler; EINVAL changes nothing; the handlers run in the order of their signals |
| SignalModel.BlockIsClosedForm | wasm-build/sdk_port-wasi/sdk_port-wasi.c:205-216 | the blocking loop, signal by signal, ends at the closed form |
| SignalModel.UnblockIsClosedForm | wasm-build/sdk_port-wasi/sdk_port-wasi.c:218-236 | the unblocking loop ends at the closed form with exactly the pending signals received, or in abort() exactly when one was tampered with |
| SignalModel.OneCall | wasm-build/sdk_port-wasi/sdk_port-wasi.c:187-241 | union, difference or replacement minus refused signals; every signal keeps its meaning; each unblocked pending signal is delivered once, after all masks and handlers are in place |
| SignalModel.LowerSignalsFirst | wasm-build/sdk_port-wasi/sdk_port-wasi.c:238-240 | the handlers that one call runs, run in the order of their signals, in any state |
| SignalModel.TablesOfCall | wasm-build/sdk_port-wasi/sdk_port-wasi.c:205-236 | which marks a call clears, which handlers it saves or gives back, for every signal |
| SignalModel.NothingTampered | wasm-build/sdk_port-wasi/sdk_port-wasi.c:226-230 | under the invariant the abort() is never reached |
| SignalModel.RunKeepsInv | wasm-build/sdk_port-wasi/sdk_port-wasi.c:187-236 | in every run, a bit of blocked_set is set exactly when blocked_handler is installed, and old_handlers then holds the application's handler |
| SignalModel.SaveAndRestore | wasm-build/sdk_port-wasi/sdk_port-wasi.c:177-244 | blocking with the old mask saved, any run, then SIG_SETMASK restores the mask and, without new handlers, the whole table, before anything is raised |
| SignalModel.BlockedArrivals | wasm-build/sdk_port-wasi/sdk_port-wasi.c:163-174 | while a signal is blocked its arrivals run nothing and leave one mark |
| SignalModel.Conservation | wasm-build/sdk_port-wasi/sdk_port-wasi.c:205-241 | a signal blocked, arriving any number of times, then unblocked runs its handler exactly once if it arrived and never otherwise |
| CommandFeed.ReadCommand | pglite-REL_17_4_WASM/pgl_mains.c:58-101 | the inner loop takes exactly one command off the feed |
| CommandExecution.ExecuteFeed | pglite-REL_17_4_WASM/pgl_mains.c:56-126 | no executed command begins with a refused text; without refusals, in plain mode the commands are the reduced feed cut behind each newline, and in -j mode the feed that joins break-free commands and a last one executes exactly these, ended or not |
| CommandExecution.ExecutedAllIff | pglite-REL_17_4_WASM/pgl_mains.c:110-123 | exactly the refused commands are missing, and none if no command begins like them |
| InteractiveFile.SplitFeed | pglite-REL_17_4_WASM/pgl_mains.c:56-126 | the same with the two texts of the program |
| CommandFeed.SemiSplit | pglite-REL_17_4_WASM/pgl_mains.c:62-75 | the feed is the commands, each followed by the dropped newline, and the tail; every command ends in semicolon-newline and contains no break |
| CommandFeed.SplitOfJoin | pglite-REL_17_4_WASM/pgl_mains.c:62-75 | splitting the join of any such commands gives them back |
| CommandFeed.PlainModeReduces | pglite-REL_17_4_WASM/pgl_mains.c:76-100 | commands and tail are the stack reduction of the feed; discarded backslashes equal discarded newlines, nothing else is lost or moved, every command has one newline, its last character |
| CommandFeed.ReduceCancels | pglite-REL_17_4_WASM/pgl_mains.c:82-89 | taking out a backslash-newline pair anywhere does not change the result |
| CommandFeed.ReduceIsNormal | pglite-REL_17_4_WASM/pgl_mains.c:82-95 | no pair is left, and text without a pair is its own result |
| ShellQuote.PQExpBuffer.AppendShellStringNoError | pglite-REL_17_4_WASM/pgl_stubs.h:101-129 | appends the quoted form, which is the text itself exactly when it is not empty and holds letters, digits and - _ . / : only; true exactly when the input has no newline or carriage return |
| ShellQuote.QuoteRoundTrip | pglite-REL_17_4_WASM/pgl_stubs.h:101-129 | a POSIX shell reads the quoted form of any string as exactly one word, the string without its line breaks |
| Dictionary.Dict.FindIndex | wasm-build/sdk_port-wasi/sdk_port-wasi-dlfcn.c:19-27 | the first entry with the key, or -1 exactly when there is none |
| Dictionary.Dict.Find | wasm-build/sdk_port-wasi/sdk_port-wasi-dlfcn.c:29-33 | agrees with the map, with the default for absent keys |
| Dictionary.Dict.Add | wasm-build/sdk_port-wasi/sdk_port-wasi-dlfcn.c:35-49 | is map update; the length grows by one exactly for new keys |
| Dictionary.Build | wasm-build/sdk_port-wasi/sdk_port-wasi-dlfcn.c:35-57 | over any run of additions: the map, the capacity ten times a power of two, and fewer entries copied by growth than twice the length |
| Dictionary.LastAdditionWins | wasm-build/sdk_port-wasi/sdk_port-wasi-dlfcn.c:35-49 | a key is there exactly when it was added, with the value of its last addition |
| PackedArgv.CopyArgv | pglite-REL_17_4_WASM/pglite-modpython.c:49-69 | the block has the size counted first and is filled completely; every pointer leads to a copy of its argument; the table ends in NULL |
| PackedArgv.RegionsAreDisjoint | pglite-REL_17_4_WASM/pglite-modpython.c:51-65 | table slots and strings do not overlap, and each string ends where the next begins |
| PackedArgv.StringReadsBack | pglite-REL_17_4_WASM/pglite-modpython.c:61-63 | reading a C string at such a place gives the argument |

## Left out

- Backend.Backend.InteractiveOne: a request must leave two bytes of the shared part, as `StopsInTimeIff` says it has to.
- Runs.Login: after a startup in a file and a password over shared memory, the reply is promised only if the send buffer is where the host looks.
- Runs.Connect: a password that passes the checks of `startup_pass`; it is not compared with anything, as in the code.
- Backend.Backend.InteractiveOneFile: request files longer than the receive buffer are covered by `ReceiveFile` as byte streams only; the loop looks at buffered bytes, so dispatch over several chunks is not modelled.
- Backend.Backend.SocketBackend: the message size limits of PostgreSQL are not modelled, nor its own check of the type: an unknown type ends the process in the switch, or is skipped while skipping; the laws about skipping speak of known types only.
- Backend.Backend.Dispatch: handlers that read further messages themselves (COPY FROM STDIN) are not modelled; a handler sees one message.
- Backend.Backend.Exchange: the host removes a published reply file before the next packet, as the page in `repl.html` does after reading it.
- CommandExecution.ExecuteFeed: the test of `ignore_till_sync` before a command is executed, which no Query sets.
- Transport.PqComm.RecvBuf: entered only with a drained buffer, as its callers in PostgreSQL do; short writes and read errors of files are not modelled.
- SignalPort.SignalPort.SigProcMask: handlers are logged, not run, so a handler that changes masks itself is not modelled; the C library keeps a handler installed after it ran.
- Dictionary.Dict.Add: 32-bit overflow of the capacity and failing allocations are not modelled.
- PackedArgv.CopyArgv: 32-bit overflow of the length and failing allocation are not modelled.
- Notifications, REPL mode and standard output, debug branches, and the host-driven resume with a negative `cma_rsize`.
- `sf_connected`, statement timestamps, statistics and process titles in the message switch.
- The database behind the engine: SQL execution, transactions, memory contexts and settings.
- `appendShellString`, which only exits the process when the quoter returns false.
- `dlopen` and `dlsym`, shared memory, semaphores and the other stubs of the WASI port.
- Build scripts, the web page and the packing scripts.
