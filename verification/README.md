# Verified models of the Trusty IPC applications

The repository checks two Trusty applications, the storage server's IPC layer and the
keymaster, together with stand-ins for the kernel's handle table, by bounded model
checking: two loop rounds, two ports, two channels. This project proves the unbounded
versions: every run, any number of events, any number of handles.

| files | what they model |
|---|---|
| `Trusty.dfy` | return codes, integer conversions, the event word |
| `FlatSpec.dfy`, `FlatProofs.dfy`, `FlatTable.dfy` | the flat handle table: on values, what holds over every sequence of calls, and as slot arrays updated in place |
| `PtrTable.dfy`, `PtrSyscalls.dfy`, `Simulation.dfy` | the pointer handle table, on values and as heap objects, its system calls where they differ, and the proof that it simulates the flat table |
| `StorageCalls.dfy`, `FlatService.dfy`, `PtrService.dfy` | the calls on handles that the storage server makes, and what they make of the flat and of the pointer table over whole runs |
| `Syscalls.dfy` | the system calls over the flat table |
| `StorageSpec.dfy`, `StorageProofs.dfy` | `ipc.c` as functions from states to outcomes, its global invariant, and theorems about all runs |
| `StorageServer.dfy` | `ipc.c` on context objects, the flat table and a buffer array; every method is proved to follow the specification |
| `CallLog.dfy` | logs of kernel calls on a channel, and the exchange of `send_msg` and `wait_to_send` |
| `ServerLog.dfy` | logs of all that a server asks, the kernel, the allocator and the application, with the answers |
| `SyncIpc.dfy` | `sync_ipc_send_msg` and its helpers |
| `Chunker.dfy` | `send_response` of the keymaster |
| `ConfigureGate.dfy` | the command gate of the keymaster's non-secure dispatcher |
| `KeymasterSpec.dfy`, `KeymasterProofs.dfy`, `KeymasterServer.dfy` | the keymaster's event loop: on values, what every run keeps, and on context objects |

A specification says what C leaves unsaid: a failed assertion, the use of a freed context,
closing a handle that is not open and a write past the end of a buffer are outcomes of their
own, and the theorems say when they cannot occur. What the kernel and the callbacks do is an
input of the specifications, and is chosen by `*` and `:|` in the methods.

## Assumptions

- `uapi/err.h`, `lk/list.h`, storage's `ipc.h`, `trusty_uuid.h` and the keymaster classes are not part of this
  model. Of the return codes only that they are negative and distinct is used. A list node
  knows the list it is in, and a context the fields that `ipc.c` uses.
- `on_connect` returns no context or one that is not in use, with an `on_disconnect`.
  `on_disconnect` ends the life of the context. `on_handle_msg` may leave any message pending on
  its own channel, and touches nothing else of the server.
- `realloc` fails, or gives a buffer of the size asked for. `accept`, `set_cookie`, `put_msg`,
  `port_create`, `get_msg`, `read_msg`, `wait` and `wait_any` may fail at any time; `read_msg` may
  also store fewer bytes than asked for, never more than the message has, and its errors are
  numbers of type `int`.
- The application creates a port on a context that is not in use
  (`StorageProofs.CreateNeedsUnusedContext` says why). That it asks for at least 4096 bytes is
  assumed only where the overrun of the buffer is excluded
  (`StorageProofs.SafeExactlyWhenEnoughAsked` says why).
- `TrustyKeymaster` has `ConfigureCalled()` false at first and true after any
  `set_configure_error`. An operation that takes no request counts as one that can always be
  deserialized.
- The lengths of the buffers of one request add up to less than 2^63.
- The event word and the command word are taken apart into flags; `Trusty.NoneIsZero` and
  `Chunker.WordsAreNumbers` connect them to the words.

## What the code does not do

- `do_handle_msg` compares the length of a message with 4096, not with the size of the buffer.
- `ipc_port_create` does not notice that a context is in use.
- `wait_to_send` returns without an error and without having sent when `wait` reports none of
  SEND_UNBLOCKED, MSG and HUP; `send_response` then reports success for a response that the
  receiver does not get.
- Over the flat table `port_create` without a path returns an error code that its callers take
  for a handle.
- `read_msg` into two buffers writes to the first one twice when the message fills both.
- `put_msg` ignores the id it is given, and `read_msg` with id 0 reads a retired message.
- `keymaster_port_handler` expects `accept` to fail below 0; with INVALID_IPC_HANDLE it loses a
  context or closes a handle that is not open.
- `keymaster_chan_handler` loses the context of a channel that reports ERROR or READY.
- Over either table no peer is ever admitted to the keymaster's secure port.
- A command that has STOP itself makes a receiver take the first message for the whole response.

## Model

| member | source | states |
|---|---|---|
| StorageProofs.RunInv | trusty_mod/trusty/user/app/storage/ipc.c:353-438 | Over every run (any ports, whatever buffer sizes they ask for, any events, kernel answers and callback results, any length): no assertion of `dispatch_event` fails, no context is used after `on_disconnect`, only open handles are closed; the only violation there can be is an overrun of `msg_buf`; at every iteration boundary open handles and live contexts are in bijection and each channel context is in exactly one list |
| StorageProofs.RunSafe | trusty_mod/trusty/user/app/storage/ipc.c:146-162 | Nor is `msg_buf` overrun in any run in which the buffer holds 4096 bytes from the start or every port asks for that much |
| StorageProofs.SafeExactlyWhenEnoughAsked | trusty_mod/trusty/user/app/storage/ipc.c:368-393 | A program whose first port asks for n bytes is free of violations, whatever it and its clients do then, if and only if n is at least 4096 |
| StorageProofs.OverlongMessageFaults | trusty_mod/trusty/user/app/storage/ipc.c:146-162 | The run that shows the other half: create a port for fewer than 4096 bytes, accept a client, receive a message one byte longer than the buffer |
| StorageProofs.StepInv | trusty_mod/trusty/user/app/storage/ipc.c:48-64 | One step keeps all of that; it goes wrong exactly when `read_msg` stores more than the buffer holds; `abort()` is called exactly when a port reports anything but READY or a channel reports ERROR or READY |
| StorageProofs.DestroyEndsAll | trusty_mod/trusty/user/app/storage/ipc.c:406-418 | A whole run from program start that ends with `ipc_port_destroy(p)` succeeds, and every connection p ever accepted, on whatever path it ended, was disconnected exactly once and closed exactly once |
| StorageProofs.DestroyedPortIsOver | trusty_mod/trusty/user/app/storage/ipc.c:406-418 | Once a port is gone its connections are over, and no later step of any run touches their history again |
| StorageProofs.AcceptedIsLivePlusClosed | trusty_mod/trusty/user/app/storage/ipc.c:111-128 | accepted = live + closed in every state with the invariant; open channels and live contexts are equally many |
| StorageProofs.SafeExactlyWhenBufferReady | trusty_mod/trusty/user/app/storage/ipc.c:146-162 | The length check compares with 4096, not with the buffer size: a step is free of violations for all inputs if and only if the buffer holds 4096 bytes or no channel has a message handler |
| StorageProofs.GrowBuffer | trusty_mod/trusty/user/app/storage/ipc.c:36-46 | The buffer has the recorded size, which is the maximum over all requests not refused; a request fails exactly when it is larger and `realloc` fails |
| StorageProofs.CreateAllOrNothing | trusty_mod/trusty/user/app/storage/ipc.c:368-404 | `ipc_port_create` succeeds exactly when a handle was opened, the cookie set and the buffer large enough or grown; then one port is open with its cookie and an empty list, and otherwise nothing has changed |
| StorageProofs.CreateNeedsUnusedContext | trusty_mod/trusty/user/app/storage/ipc.c:368-398 | Creating a port on a context keeps the invariant if and only if the context is not in use |
| StorageProofs.CreateUnopenedNeverFits | trusty_mod/trusty/user/app/storage/ipc.c:375-404 | When `port_create` returns an error code other than INVALID_IPC_HANDLE, `ipc_port_create` reports success for a port that is not open exactly when the cookie could be set and the buffer suffices; otherwise it closes a handle that is not open |
| StorageProofs.CreateInv | trusty_mod/trusty/user/app/storage/ipc.c:368-404 | Success and every failure of `ipc_port_create` keep the invariant for all other ports |
| StorageProofs.DestroyInv | trusty_mod/trusty/user/app/storage/ipc.c:406-418 | `ipc_port_destroy` closes the port, ends exactly the connections linked to it, and leaves contexts, handles and cookies of all other ports as they were |
| StorageProofs.DrainOneEnds | trusty_mod/trusty/user/app/storage/ipc.c:408-416 | One round of its loop unlinks the head, disconnects it once and closes its handle once |
| StorageProofs.ConnectEnds | trusty_mod/trusty/user/app/storage/ipc.c:91-128 | The three ends of an accepted connection: refused by `on_connect`, given up because `set_cookie` failed (disconnected and closed once), or joined to the list of the port with cookie, handle and handler set |
| StorageProofs.ConnectInv | trusty_mod/trusty/user/app/storage/ipc.c:85-129 | `do_connect` keeps the invariant whatever `accept`, `on_connect` and `set_cookie` do |
| StorageProofs.DisconnectEnds | trusty_mod/trusty/user/app/storage/ipc.c:181-186 | `do_disconnect` on a live context succeeds, unlinks it, ends it once and closes its handle once |
| StorageProofs.WithoutNoDup | trusty_mod/trusty/user/app/storage/ipc.c:183 | Deleting a node from its list removes that node only |
| StorageProofs.HandleMsgEnds | trusty_mod/trusty/user/app/storage/ipc.c:131-179 | `do_handle_msg` overruns the buffer exactly when a message that is not refused is stored beyond its end; otherwise it changes pending messages only and hands on at most one message, complete, of at most 4096 bytes and within the buffer |
| StorageProofs.HandleMsgOutcome | trusty_mod/trusty/user/app/storage/ipc.c:131-179 | Without an overrun: exactly which messages are refused, which reach `on_handle_msg`, and that one refused after `get_msg` is retired when `put_msg` succeeds |
| StorageProofs.ChannelEventOutcome | trusty_mod/trusty/user/app/storage/ipc.c:197-224 | A channel event ends the connection exactly when the peer hung up, or a message came that has no handler or was refused (once, also for MSG with HUP); every other connection is untouched |
| StorageProofs.HandleChannelInv | trusty_mod/trusty/user/app/storage/ipc.c:197-224 | `handle_channel` keeps the invariant on every path, and overruns the buffer exactly on one |
| StorageProofs.PortStepOutcome | trusty_mod/trusty/user/app/storage/ipc.c:85-129 | What an event on a port does, stated of the whole step: `abort()`, nothing at all, or the accepted connection is joined to the list of its port with handler, handle and cookie, exactly when `on_connect` gave a context and the cookie could be set, and else over, disconnected if it had a context |
| StorageProofs.ChannelStepOutcome | trusty_mod/trusty/user/app/storage/ipc.c:131-224 | What an event on a channel does, stated of the whole step: `abort()` exactly for ERROR or READY; else pending message and delivery as `get_msg`, `read_msg`, `put_msg` and `on_handle_msg` leave them, and then the end of the connection exactly when the peer hung up or the message had no handler or was refused |
| StorageProofs.ChannelStepEnds | trusty_mod/trusty/user/app/storage/ipc.c:181-224 | A connection that such an event ends is unlinked, disconnected once and closed once |
| StorageServer.Server.DoDisconnect | trusty_mod/trusty/user/app/storage/ipc.c:181-186 | The method on context objects does what the specification says |
| StorageServer.Server.DoConnect | trusty_mod/trusty/user/app/storage/ipc.c:85-129 | The same for `do_connect`, with contexts and the table updated in place; its calls are `accept`, `on_connect` for a connection and `set_cookie` for a context, and what it did follows from their answers |
| StorageServer.Server.DoHandleMsg | trusty_mod/trusty/user/app/storage/ipc.c:131-179 | The same for `do_handle_msg`, reading into the real buffer array, of any size, and noting an overrun; its calls are `get_msg` alone if that fails, `get_msg` and `put_msg` for a message that is too long, and `get_msg`, `read_msg`, `put_msg` otherwise, all with the announced id |
| StorageServer.Server.HandleChannel | trusty_mod/trusty/user/app/storage/ipc.c:197-224 | The same for `handle_channel`, including `abort()` and an overrun |
| StorageServer.Server.HandlePort | trusty_mod/trusty/user/app/storage/ipc.c:188-195 | The same for `handle_port` |
| StorageServer.Server.DispatchEvent | trusty_mod/trusty/user/app/storage/ipc.c:353-366 | The same for `dispatch_event`, with its assertions proved |
| StorageServer.Server.MaybeGrowMsgBuf | trusty_mod/trusty/user/app/storage/ipc.c:36-46 | The same for `maybe_grow_msg_buf` |
| StorageServer.Server.PortCreate | trusty_mod/trusty/user/app/storage/ipc.c:368-404 | The same for `ipc_port_create`, with and without a port name; its calls are `port_create`, `set_cookie` and `realloc`, and what it did follows from their answers |
| StorageServer.Server.PortDestroy | trusty_mod/trusty/user/app/storage/ipc.c:406-418 | The same for `ipc_port_destroy` |
| StorageServer.PortRound | trusty_mod/trusty/user/app/storage/ipc.c:85-129 | The calls of one round on a port, one by one: `wait_any`, `accept` exactly for READY alone, `on_connect` for a connection, `set_cookie` for a context, each with its answer |
| StorageServer.ChannelRound | trusty_mod/trusty/user/app/storage/ipc.c:131-224 | The calls of one round on a channel, one by one: `wait_any`; for MSG on a channel that takes messages `get_msg`, `read_msg` unless the message is too long, `put_msg`, and `on_handle_msg` exactly for a message that was read whole into the buffer |
| StorageServer.CreateRound | trusty_mod/trusty/user/app/storage/ipc.c:368-393 | The calls of `ipc_port_create`, one by one: `port_create`, `set_cookie` for a handle, `realloc` exactly if the port asks for more than the buffer has |
| StorageServer.Server.IpcLoop | trusty_mod/trusty/user/app/storage/ipc.c:420-438 | The loop over the flat table, with any ports and any size of buffer: the log of its calls is `wait_any` with the calls of the handler, round by round, one input of the run for each event that `wait_any` reported; there are as many as asked for unless the last `wait_any` failed or the run ended in `abort()` or an overrun; they are a run of the specification with the outcome of the server, and invariant and exact table counters hold at every iteration; every message that `get_msg` announced was retired once, in order |
| StorageServer.LoopRetires | trusty_mod/trusty/user/app/storage/ipc.c:131-179 | In the log of every such loop each message that `get_msg` announced is retired once, in order |
| StorageServer.RunStorageService | trusty_mod/trusty/user/app/storage/ipc.c:368-438 | Create a port for any size of buffer, run the loop, destroy the port: the log is the calls of the creation and those of each round, and what happened is a run of the specification from its start with the outcome of the server; every announced message was retired once; unless `abort()` was called or the buffer overrun, every connection was disconnected and closed exactly once, no slot is active and both table counters are 0; with 4096 bytes there is no overrun |
| StorageCalls.StepTakes | trusty_mod/trusty/user/app/storage/ipc.c:85-438 | For every input of the storage server, the calls on handles that it makes, in order: each acts on an open handle (only open ones are closed) or opens one that was not, and together they do to handles, cookies and messages what the step does |
| StorageCalls.RunTakes | trusty_mod/trusty/user/app/storage/ipc.c:85-438 | The same over runs of any length |
| FlatService.StepMatches | seahorn/trusty/user/base/lib/libc-trusty/sea_handle_table.c:173-281 | One step of the storage server over the flat table, whatever ports and buffer: the table after its calls has exactly the open handles, cookies and messages of the specification and exact counters, and no inactive slot was freed |
| FlatService.ServerOverFlat | seahorn/trusty/user/base/lib/libc-trusty/sea_handle_table.c:173-281 | Every program over a flat table of any size, with ports created and destroyed in any order and for any sizes of buffer: in every state a run reaches the counters equal the numbers of active slots, every close on the way freed an active slot, and once no port is left no slot is active and both counters are 0 |
| SyncIpc.Session.SyncIpcSendMsg | trusty_mod/trusty/user/app/storage/ipc.c:285-351 | The calls made, one by one, for every answer of the kernel, and the result, which is a function of the answers in that log; the next rows say what follows for every such log |
| SyncIpc.RequestRetried | trusty_mod/trusty/user/app/storage/ipc.c:293-301 | The request is sent first; without room for it there is a wait, and when that reports SEND_UNBLOCKED the same request is sent again; nothing else is ever sent |
| SyncIpc.ResultIsLogged | trusty_mod/trusty/user/app/storage/ipc.c:260-350 | Which code the result is, from the answers alone: that of the failed call, ERR_BUSY or ERR_CHANNEL_CLOSED for what a wait reported, ERR_NOT_VALID and ERR_BAD_LEN exactly for an announced length that is too short or too long, else the count that was read |
| SyncIpc.ResultWithoutBuffers | trusty_mod/trusty/user/app/storage/ipc.c:303-307 | Without receive buffers the result is NO_ERROR or a failure: that of the last call, if it failed |
| SyncIpc.RequestSent | trusty_mod/trusty/user/app/storage/ipc.c:293-301 | Unless the result is negative, the request was sent, once, exactly when no `wait_to_send` returned silently without sending |
| SyncIpc.AnnouncedIsRetired | trusty_mod/trusty/user/app/storage/ipc.c:309-340 | At most one message is announced, and an announced one is retired under its own id on every path: once if its length is refused, twice if it is read |
| SyncIpc.ResultIsAnnouncedLength | trusty_mod/trusty/user/app/storage/ipc.c:309-350 | A result that is not negative, when a response is wanted, is the length of the one announced message and the count that `read_msg` answered, with `rx[0] <= n <= sum` of the buffers |
| SyncIpc.ReadIsComplete | trusty_mod/trusty/user/app/storage/ipc.c:226-242 | Whatever `read_msg` answers, the result is not negative exactly when it read the whole message and that is an `int` |
| SyncIpc.ReadIsShort | trusty_mod/trusty/user/app/storage/ipc.c:343-348 | Exactly which answers of `read_msg` give ERR_IO |
| SyncIpc.Session.WaitToSend | trusty_mod/trusty/user/app/storage/ipc.c:260-283 | After the logged `wait`: sends on SEND_UNBLOCKED and returns what that returns, ERR_BUSY on MSG, ERR_CHANNEL_CLOSED on HUP, and otherwise the code of `wait`, without having sent |
| CallLog.ExchangeSends | trusty_mod/trusty/user/app/storage/ipc.c:260-296 | `send_msg` with its `wait_to_send` hands the message over exactly when the result is not negative and the wait was not silent; a silent wait passes for a success |
| CallLog.ExchangeRetries | trusty_mod/trusty/user/app/storage/ipc.c:260-296 | In its log a first send that finds no room is followed at once by a wait, a wait that reports SEND_UNBLOCKED by a send of the same message, and the result is the failure that ends it: of a send, of a wait, ERR_BUSY for MSG, ERR_CHANNEL_CLOSED for HUP |
| SyncIpc.Session.ReadResponse | trusty_mod/trusty/user/app/storage/ipc.c:226-242 | Reads and retires; the count goes through `int` |
| SyncIpc.Session.TotalLength | trusty_mod/trusty/user/app/storage/ipc.c:323-327 | The loop adds the lengths modulo 2^64 |
| SyncIpc.ResponseAccepted | trusty_mod/trusty/user/app/storage/ipc.c:316-350 | Exactly which lengths and answers of `read_msg` make an accepted response |
| SyncIpc.StandInNeverShort | trusty_mod/trusty/user/app/storage/ipc.c:336-348 | Over the flat table `read_msg` reads all of an acceptable message, so ERR_IO is returned exactly when the length is no `int` and keeps its sign: never up to INT_MAX |
| FlatProofs.NewPortIsFirstFit | seahorn/trusty/user/base/lib/libc-trusty/sea_handle_table.c:156-166 | Port allocation on any number of slots: fails exactly when all slots of that parity are active; otherwise the least inactive one of that parity, and only its active flag changes |
| FlatProofs.NewChannelIsFirstFit | seahorn/trusty/user/base/lib/libc-trusty/sea_handle_table.c:254-281 | The same for channels, without parity |
| FlatProofs.HeldAreActive | seahorn/trusty/user/base/lib/libc-trusty/sea_handle_table.c:173-281 | After any sequence of calls the active slots are exactly the handles given out and not freed since |
| FlatProofs.NoTwoHoldersOfOneHandle | seahorn/trusty/user/base/lib/libc-trusty/sea_handle_table.c:199-281 | No handle is given out while somebody holds it |
| FlatProofs.CountersConserved | seahorn/trusty/user/base/lib/libc-trusty/sea_handle_table.c:173-192 | After any sequence of calls: active slots = counter + frees of inactive slots, up to multiples of 2^32 |
| FlatProofs.CountersExactExactlyWhen | seahorn/trusty/user/base/lib/libc-trusty/sea_handle_table.c:173-215 | The counters tell the number of active slots if and only if the frees of inactive slots are a multiple of 2^32 |
| FlatProofs.StepKeepsCounters | seahorn/trusty/user/base/lib/libc-trusty/sea_handle_table.c:173-192 | One call keeps exact counters exact if and only if it is not the free of an inactive slot |
| FlatTable.HandleTable.constructor | seahorn/trusty/user/base/lib/libc-trusty/sea_handle_table.c:52-77 | The table starts empty |
| FlatTable.HandleTable.NewPort | seahorn/trusty/user/base/lib/libc-trusty/sea_handle_table.c:199-215 | Allocation on the slot array does what the specification says |
| FlatTable.HandleTable.NewChannel | seahorn/trusty/user/base/lib/libc-trusty/sea_handle_table.c:266-281 | The same for channels |
| FlatTable.HandleTable.Free | seahorn/trusty/user/base/lib/libc-trusty/sea_handle_table.c:173-192 | Frees and decrements, with wrap-around, whether or not the slot is active |
| FlatTable.HandleTable.SetCookie | seahorn/trusty/user/base/lib/libc-trusty/sea_handle_table.c:343-349 | Sets the cookie of a port or channel slot and nothing else |
| FlatTable.HandleTable.GetCookie | seahorn/trusty/user/base/lib/libc-trusty/sea_handle_table.c:351-357 | Reads it |
| FlatTable.HandleTable.IsActivePort | seahorn/trusty/user/base/lib/libc-trusty/sea_handle_table.c:283-293 | Tells whether a port slot is active |
| FlatTable.HandleTable.NewMsg | seahorn/trusty/user/base/lib/libc-trusty/sea_handle_table.c:137-149 | Sets id and length of the pending message of a channel slot and nothing else |
| FlatTable.HandleTable.SetMsgId | seahorn/trusty/user/base/lib/libc-trusty/sea_handle_table.c:102-111 | Sets the message id |
| FlatTable.HandleTable.SetMsgLen | seahorn/trusty/user/base/lib/libc-trusty/sea_handle_table.c:124-133 | Sets the message length |
| PtrTable.HandleHeap.NewPort | seahorn/trusty/user/base/lib/libc-trusty-ptr/sea_handle_table.c:84-99 | Allocation of a port object; malloc may fail |
| PtrTable.HandleHeap.NewChannel | seahorn/trusty/user/base/lib/libc-trusty-ptr/sea_handle_table.c:126-140 | Allocation of a channel object, with an arbitrary `secure` field |
| PtrTable.HandleHeap.Free | seahorn/trusty/user/base/lib/libc-trusty-ptr/sea_handle_table.c:73-77 | The object stays and is inactive |
| PtrTable.HandleHeap.SetCookie | seahorn/trusty/user/base/lib/libc-trusty-ptr/sea_handle_table.c:166-168 | Sets the cookie of that object only |
| PtrTable.HandleHeap.NewMsg | seahorn/trusty/user/base/lib/libc-trusty-ptr/sea_handle_table.c:63-68 | Sets its pending message |
| Simulation.PtrSimulatesFlat | seahorn/trusty/user/base/lib/libc-trusty-ptr/sea_handle_table.c:63-99 | Every sequence of calls on the flat table is matched by calls on the pointer table that keep active slots and active objects in bijection, agreeing on kind, port security, and cookie and message once written since allocation |
| Simulation.StepRelated | seahorn/trusty/user/base/lib/libc-trusty-ptr/sea_handle_table.c:73-171 | One call and its match keep the tables related |
| Simulation.SameAllocations | seahorn/trusty/user/base/lib/libc-trusty-ptr/sea_handle_table.c:84-140 | Allocations succeed together and return corresponding handles |
| Simulation.SameAnswers | seahorn/trusty/user/base/lib/libc-trusty-ptr/sea_handle_table.c:142-171 | All queries about an active handle have the same answers |
| Simulation.FreshChannelsDiffer | seahorn/trusty/user/base/lib/libc-trusty/sea_handle_table.c:266-281 | Where the two differ: what a new channel shows before anything is written to it |
| PtrService.StepMatches | seahorn/trusty/user/base/lib/libc-trusty-ptr/trusty_syscalls_impl.c:12-167 | One step of the storage server (port creation with and without a name and with any failure, port destruction with its loop, and every event) over the pointer table: the heap after its calls has exactly the open handles, cookies and messages of the specification, and the cookie of an event is the one dispatched on |
| PtrService.ServerOverPointers | trusty_mod/trusty/user/app/storage/ipc.c:368-438 | A storage server over the pointer table, from its start: in every state a run reaches the active objects are exactly the open handles of a state with the global invariant, and none is active once no port is left |
| PtrService.UnnamedPortFails | seahorn/trusty/user/base/lib/libc-trusty-ptr/trusty_syscalls_impl.c:12-25 | `ipc_port_create` without a name fails over this table and changes nothing |
| PtrSyscalls.PortCreateGivesPort | seahorn/trusty/user/base/lib/libc-trusty-ptr/trusty_syscalls_impl.c:12-25 | The result is a newly opened port, as secure as its flags say, if and only if a path was given and there was memory; else it is the invalid handle |
| PtrSyscalls.SecureStays | seahorn/trusty/user/base/lib/libc-trusty-ptr/trusty_syscalls_impl.c:40-60 | What `accept` looks at for the uuid of a peer never changes |
| Syscalls.ReadMsgCount | seahorn/trusty/user/base/lib/libc-trusty/trusty_syscalls_impl.c:122-155 | With a matching id, a message that is not empty and an offset within it, the result is the smaller of what is left and the sum of the buffers; else exactly which error it is |
| Syscalls.ReadCascade | seahorn/trusty/user/base/lib/libc-trusty/trusty_syscalls_impl.c:132-154 | The branches for one and two buffers compute the recursive fold |
| Syscalls.ReadWrites | seahorn/trusty/user/base/lib/libc-trusty/trusty_syscalls_impl.c:137-154 | What is written: the read stays inside its buffers if and only if it does not fill two buffers of which the second is longer; when both are filled the second one misses its part |
| Syscalls.FillIsMin | seahorn/trusty/user/base/lib/libc-trusty/trusty_syscalls_impl.c:137-154 | The fold over any number of buffers is the minimum of length and sum |
| Syscalls.SendMsgCount | seahorn/trusty/user/base/lib/libc-trusty/trusty_syscalls_impl.c:165-180 | An error is reported as it is; on success the result is the sum of the lengths if and only if that is below 2^63 |
| Syscalls.PutRetires | seahorn/trusty/user/base/lib/libc-trusty/trusty_syscalls_impl.c:111-163 | After a successful `put_msg`, with any id, `get_msg` and every `read_msg` with an id other than 0, at any offset, fail on that channel through any further calls until a wait on it reports MSG; with id 0 the retired message can still be read |
| Syscalls.GetMsgGivesId | seahorn/trusty/user/base/lib/libc-trusty/trusty_syscalls_impl.c:111-120 | `get_msg` succeeds if and only if the environment has no error and the id is not 0, and reports an error as it is |
| Syscalls.PortCreateGivesPort | seahorn/trusty/user/base/lib/libc-trusty/trusty_syscalls_impl.c:12-24 | The result is a newly opened port if and only if a path was given and a slot of the right parity was free; without a path an error code passes for a handle |
| Syscalls.SecureBits | seahorn/trusty/user/base/lib/libc-trusty/trusty_syscalls_impl.c:18-20 | Bits 0 and 1 of the flags decide whether a port is secure |
| Syscalls.SysPortCreate | seahorn/trusty/user/base/lib/libc-trusty/trusty_syscalls_impl.c:12-24 | The call on the table |
| Syscalls.SysAccept | seahorn/trusty/user/base/lib/libc-trusty/trusty_syscalls_impl.c:39-56 | The call on the table; the uuid is zero but for its node bytes when bit 0 of the port handle is clear, and untouched when no channel was opened |
| Syscalls.SysClose | seahorn/trusty/user/base/lib/libc-trusty/trusty_syscalls_impl.c:58-61 | The call on the table |
| Syscalls.SysSetCookie | seahorn/trusty/user/base/lib/libc-trusty/trusty_syscalls_impl.c:63-66 | The call on the table |
| Syscalls.SysWait | seahorn/trusty/user/base/lib/libc-trusty/trusty_syscalls_impl.c:77-92 | Any error or any event; the cookie is that of the handle, and with MSG the channel has a new message with an id that is not 0 |
| Syscalls.SysWaitAny | seahorn/trusty/user/base/lib/libc-trusty/trusty_syscalls_impl.c:94-109 | The same for any active handle; it waits for ever only if no handle is active |
| Syscalls.SysGetMsg | seahorn/trusty/user/base/lib/libc-trusty/trusty_syscalls_impl.c:111-120 | The call on the table |
| Syscalls.SysReadMsg | seahorn/trusty/user/base/lib/libc-trusty/trusty_syscalls_impl.c:122-155 | The call on the table, with its assertions as preconditions: the count and the memory it writes |
| Syscalls.SysReadMsgInto | seahorn/trusty/user/base/lib/libc-trusty/trusty_syscalls_impl.c:122-143 | The call with one buffer, really an array of any length: whether the bytes stored fit, and then that nothing else is written |
| Syscalls.SysPutMsg | seahorn/trusty/user/base/lib/libc-trusty/trusty_syscalls_impl.c:157-164 | The call on the table; the id it is given does not matter |
| Syscalls.SysSendMsg | seahorn/trusty/user/base/lib/libc-trusty/trusty_syscalls_impl.c:165-180 | The call, adding in `size_t` |
| Trusty.NoneIsZero | trusty_mod/trusty/user/base/include/user/trusty_ipc.h:106-113 | Taking the event word apart into flags loses nothing that `== IPC_HANDLE_POLL_NONE` needs |
| Trusty.FlagsAreBits | trusty_mod/trusty/user/base/include/user/trusty_ipc.h:106-113 | The bits 0 to 4 are READY, ERROR, HUP, MSG and SEND_UNBLOCKED, and the flags of two words put together are those of both |
| Chunker.Channel.SendResponse | seahorn/keymaster/jobs/ipc/keymaster_ipc.cpp:135-170 | The calls made are an exchange for each message of `Chunks`, up to the first that fails, and the result is the failure of the last call, if any. Success: the receiver gets exactly the response if and only if STOP comes at the end only and no logged `wait` was silent. Failure: the receiver does not get it, nor anything it could take for complete unless STOP came early. 32-bit arithmetic with `bytes_sent + bytes_remaining` conserved |
| Chunker.SendsRetry | seahorn/keymaster/jobs/ipc/keymaster_ipc.cpp:110-164 | In the log of every response: each first send that finds no room is followed at once by a wait, waits come from nowhere else, each that reports SEND_UNBLOCKED is followed by a send of the same message, only the last call fails, and its failure is the result |
| Chunker.Channel.WaitToSend | seahorn/keymaster/jobs/ipc/keymaster_ipc.cpp:110-133 | After the logged `wait`: sends on SEND_UNBLOCKED and returns what that returns, ERR_BUSY on MSG, ERR_CHANNEL_CLOSED on HUP, and otherwise the code of `wait`, without having sent |
| Chunker.ChunksCarryAll | seahorn/keymaster/jobs/ipc/keymaster_ipc.cpp:143-167 | The payloads concatenate to exactly the response |
| Chunker.ChunksCount | seahorn/keymaster/jobs/ipc/keymaster_ipc.cpp:146-167 | There are max(1, ceil(size / 4032)) messages, one for size 0 |
| Chunker.ChunksShape | seahorn/keymaster/jobs/ipc/keymaster_ipc.cpp:146-153 | Each message has at most 4096 bytes with its header; all but the last are full; the last and no other is given STOP |
| Chunker.ChunksAnswer | seahorn/keymaster/jobs/ipc/keymaster_ipc.cpp:139-140 | All carry RESP and the command of the request |
| Chunker.StopOnlyOnLast | seahorn/keymaster/jobs/ipc/keymaster_ipc.cpp:148-152 | STOP marks the last message only, if and only if the command has not that bit itself or there is one message |
| Chunker.ReceiverGetsResponse | seahorn/keymaster/jobs/ipc/keymaster_ipc.cpp:135-170 | A receiver that reads until STOP gets exactly the response, whatever follows, if and only if the command has not STOP itself or there is one message |
| Chunker.FailedSend | seahorn/keymaster/jobs/ipc/keymaster_ipc.cpp:154-164 | A response cut short by an error, also after a message that was silently not sent: no STOP was sent and the receiver never takes it for complete; without silent waits a strict prefix was sent |
| Chunker.ReceivedExactlyWhenNoSilentWait | seahorn/keymaster/jobs/ipc/keymaster_ipc.cpp:110-167 | A response reported as sent reaches the receiver if and only if STOP comes at the end only and every `wait` that succeeded reported SEND_UNBLOCKED, MSG or HUP |
| Chunker.AllSentInOrder | seahorn/keymaster/jobs/ipc/keymaster_ipc.cpp:148-167 | When no wait was silent, a response reported as sent went out whole and in order |
| Chunker.WordsAreNumbers | seahorn/keymaster/jobs/ipc/keymaster_ipc.h:24-26 | The flags of the command word as bits of a number |
| ConfigureGate.ExecutedIsLegal | seahorn/keymaster/jobs/ipc/keymaster_ipc.cpp:337-375 | Over any sequence of requests: no bootloader operation executes after an executed CONFIGURE, no ordinary one before it, and after a failed CONFIGURE nothing but GET_VERSION |
| ConfigureGate.LegalIsExecuted | seahorn/keymaster/jobs/ipc/keymaster_ipc.cpp:353-558 | Conversely every sequence of operations that obeys these rules is executed when requested |
| ConfigureGate.FailureIsAbsorbing | seahorn/keymaster/jobs/ipc/keymaster_ipc.cpp:366-369 | After a failed CONFIGURE the device never changes again, whatever is requested |
| ConfigureGate.CodesTellWhy | seahorn/keymaster/jobs/ipc/keymaster_ipc.cpp:358-376 | Exactly when ERR_NOT_CONFIGURED and NO_ERROR are returned |
| ConfigureGate.CommandNumbers | seahorn/keymaster/jobs/ipc/keymaster_ipc.h:28-66 | In plain numbers: a new device carries out 28, 72 and the multiples 1 to 9 of 0x4000; after a successful CONFIGURE the multiples of 4 up to 100 but for 96; after a failed one only 28 |
| ConfigureGate.CodeNumbers | seahorn/keymaster/jobs/ipc/keymaster_ipc.cpp:337-376 | The code for every command word in every state, in plain numbers, and that only an executed 72 changes the device |
| ConfigureGate.TrustyKeymaster.DispatchNonSecure | seahorn/keymaster/jobs/ipc/keymaster_ipc.cpp:353-558 | The dispatcher on the device object does what the gate says and executes at most that operation |
| ConfigureGate.TrustyKeymaster.DoDispatch | seahorn/keymaster/jobs/ipc/keymaster_ipc.cpp:216-242 | Executes the operation if the request can be deserialized; a CONFIGURE records its error |
| ConfigureGate.TrustyKeymaster.DispatchAll | seahorn/keymaster/jobs/ipc/keymaster_ipc.cpp:353-375 | The operations executed for any sequence of requests to a new device are legal |
| KeymasterProofs.RunInv | seahorn/keymaster/jobs/ipc/keymaster_ipc.cpp:728-841 | In every state a run reaches, each open channel's cookie is a live context for it, contexts from the secure port are the gatekeeper's and use the secure dispatcher, all others the non-secure one; no context is used or deleted that is not live; if accept reports failures below 0, no handle is closed that is not open |
| KeymasterProofs.RunFaultsExactly | seahorn/keymaster/jobs/ipc/keymaster_ipc.cpp:694-717 | A run closes a handle that is not open if and only if one of its rounds, in the state it meets, is handed INVALID_IPC_HANDLE by accept and sets up no context |
| KeymasterProofs.StepInv | seahorn/keymaster/jobs/ipc/keymaster_ipc.cpp:653-755 | One step keeps all of that, closes a handle that is not open if and only if accept failed with INVALID_IPC_HANDLE and the context was refused or given up, and calls `abort()` if and only if a port reports ERROR, HUP, MSG or SEND_UNBLOCKED |
| KeymasterProofs.ChannelEventOutcome | seahorn/keymaster/jobs/ipc/keymaster_ipc.cpp:653-684 | Exactly when a channel is closed and when its context is deleted; everything else stays |
| KeymasterProofs.ConnectionOutcome | seahorn/keymaster/jobs/ipc/keymaster_ipc.cpp:694-717 | A connection gets a channel exactly when the peer may use the port, there is memory and the cookie can be set; its context records peer, channel and dispatcher |
| KeymasterProofs.PortEventOutcome | seahorn/keymaster/jobs/ipc/keymaster_ipc.cpp:694-717 | What an event on a port does, stated of the whole step: `abort()`, nothing, or for READY with a new handle a channel and a context exactly when the peer may use the port, there is memory and the cookie can be set, recording peer, channel and dispatcher; the other cases of `accept`, and that all else stays |
| KeymasterProofs.CtxCloseInv | seahorn/keymaster/jobs/ipc/keymaster_ipc.cpp:587-590 | Closing a live context keeps the invariant |
| KeymasterProofs.Accounting | seahorn/keymaster/jobs/ipc/keymaster_ipc.cpp:565-590 | contexts made = deleted + serving an open channel + lost |
| KeymasterProofs.LeaksExactly | seahorn/keymaster/jobs/ipc/keymaster_ipc.cpp:661-667 | A step loses a context if and only if a channel reports ERROR or READY, or a context is made for a connection that accept refused with INVALID_IPC_HANDLE |
| KeymasterProofs.RunLeaks | seahorn/keymaster/jobs/ipc/keymaster_ipc.cpp:661-667 | Over a run as many contexts are lost as there are such rounds |
| KeymasterProofs.RunAccounting | seahorn/keymaster/jobs/ipc/keymaster_ipc.cpp:565-590 | From the start: contexts made = deleted + serving an open channel + one for each leaking round |
| KeymasterProofs.SecurePortAdmitsNobody | seahorn/trusty/user/base/lib/libc-trusty/trusty_syscalls_impl.c:43-47 | Over the flat table the secure port of keymaster has an even handle, so its peers have a zero uuid and are never admitted |
| KeymasterProofs.SecurePtrPortAdmitsNobody | seahorn/trusty/user/base/lib/libc-trusty-ptr/trusty_syscalls_impl.c:40-60 | Nor are they over the pointer table, whatever calls follow the creation of the port |
| KeymasterServer.Server.constructor | seahorn/keymaster/jobs/ipc/keymaster_ipc.cpp:757-796 | The state after a successful `keymaster_ipc_init` |
| KeymasterServer.Server.HandleMsg | seahorn/keymaster/jobs/ipc/keymaster_ipc.cpp:592-632 | Its calls: `get_msg` alone if that fails, else `get_msg`, `read_msg` and, exactly once on every path, `put_msg`, all with the announced id; the result follows from the answer of `read_msg`, which may fail or be short; it writes only inside its buffer of length + 1 bytes and leaves the terminator 0 |
| KeymasterServer.MsgAccepted | seahorn/keymaster/jobs/ipc/keymaster_ipc.cpp:618-632 | Exactly those messages are accepted of which `read_msg` stored a whole command word |
| KeymasterServer.WholeMsgAccepted | seahorn/keymaster/jobs/ipc/keymaster_ipc.cpp:618-632 | Over the flat table, of messages up to INT_MAX bytes, exactly those with a whole command word |
| KeymasterServer.Server.CtxClose | seahorn/keymaster/jobs/ipc/keymaster_ipc.cpp:587-590 | The method on context objects does what the specification says |
| KeymasterServer.Server.CtxOpen | seahorn/keymaster/jobs/ipc/keymaster_ipc.cpp:560-585 | The same for `keymaster_ctx_open`; `new` is asked exactly for a peer that may use the port |
| KeymasterServer.Server.ChanHandler | seahorn/keymaster/jobs/ipc/keymaster_ipc.cpp:653-684 | The same for `keymaster_chan_handler` |
| KeymasterServer.Server.PortHandler | seahorn/keymaster/jobs/ipc/keymaster_ipc.cpp:686-718 | The same for `keymaster_port_handler`; its calls are `accept`, `new` and `set_cookie`, and what it did follows from their answers |
| KeymasterServer.Server.DispatchEvent | seahorn/keymaster/jobs/ipc/keymaster_ipc.cpp:728-755 | The same for `dispatch_event` |
| KeymasterServer.PortRound | seahorn/keymaster/jobs/ipc/keymaster_ipc.cpp:686-718 | The calls of one round on a port, one by one: `wait_any`, `accept` exactly for READY alone, `new` for a peer that may use the port, `set_cookie` if there is memory, each with its answer |
| KeymasterServer.ChannelRound | seahorn/keymaster/jobs/ipc/keymaster_ipc.cpp:592-684 | The calls of one round on a channel, one by one: `wait_any`, and for MSG `get_msg`, `read_msg`, `put_msg`, whose answers give the result of `handle_msg` |
| KeymasterServer.Server.Loop | seahorn/keymaster/jobs/ipc/keymaster_ipc.cpp:826-841 | The main loop: the log of its calls is `wait_any` with the calls of the handler, round by round, one input of the run for each event that `wait_any` reported; there are as many as asked for unless the last `wait_any` failed or the run ended; they are a run of the specification with the outcome of the server; every message that `get_msg` announced was retired once, in order |

## Left out

- The rounds of `ipc_loop` and of the keymaster's loop are counted by a parameter, because every method must end; the theorems hold for every count.
- The server classes run over the flat table; there are none over the pointer table, for which `PtrService` proves the same runs on values. The class method that runs a whole program has one port; programs with any ports are `FlatService` and `PtrService`.
- StorageServer.Server.ReadMsg: may also store fewer bytes than the flat table's `read_msg` does, so that the server's check for short reads is part of the proof.
- What a program does after an overrun of the buffer, or while `wait_any` waits for ever: a run ends there. `wait_any` of the pointer table returns the handle that a harness set.
- SyncIpc.Session.ReadMsg: gives the count only, and takes any number of buffers, where the stand-in for the kernel takes one or two.
- `connect`, `sea_ht_math_port`, `on_waitany_return`, `on_connect_return`, handle sets, `dup`, timeouts and handles passed in messages.
- The bytes of messages: `read_msg` stores arbitrary bytes, as `memhavoc` does.
- Lengths that wrap around when a terminator byte is added to a message of 2^64 - 1 bytes in the keymaster's `handle_msg`, and a failing `new` there.
- The operations of the keymaster, their (de)serialization, `keymaster_dispatch_secure` and the part of `handle_msg` that is commented out.
- Failures of `keymaster_ipc_init`: the model of the loop starts after a successful one.
- Proof mains, harnesses, build files and the stand-ins for libc functions.
