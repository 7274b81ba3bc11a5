# Chat-Cpp in Dafny

A model of the logic in `Source/main.cpp` of a two-role TCP chat demo. The
server keeps an ordered list of sockets (`readableBlockingSockets`). The
listening socket comes first and accepted peers follow in acceptance order.
Each poll cycle services the sockets the poller reported ready, one at a time
and in order. The listening socket accepts a peer, sends it the 10-byte
greeting `Connected!` and appends it. A peer whose read returns exactly one
null byte is erased from the list, and any other positive read is logged. The
client strips the terminator from each typed line and sends what is left if
it is non-empty. It prints a received chunk, prefixed with `[Server]: `, only
when more than one byte arrived. `main` checks the argument count and picks a
role from the first character of the first argument.

Files:

- `wire.dfy`: bytes, the 1400-byte receive size, the zeroed receive buffer and the greeting.
- `sequences.dfy`: erasing the first match from a list (the search loop and `erase`), and filtering as the reference to compare it with.
- `server.dfy`: the server as a specification (`Step` services one socket and `Run` services one cycle), its invariant and lemmas, and the class `Server`, whose methods change the connection list in place and are proved against `Step` and `Run`.
- `client.dfy`: the client's per-pass decisions as functions.
- `launcher.dfy`: the argument dispatch of `main`.

Sockets are integer handles. The results of the networking calls are inputs:

- the handle `Accept` returns;
- the count `Recieve` returns and the bytes it wrote into the buffer;
- the snapshot of ready sockets `Select` produces;
- the console line, as the bytes of its `std::string`.

What the server sends and the diagnostic lines it prints are recorded as a
trace of events (`NewConnection`, `Greeted`, `Logged`, `Disconnected`).

The code removes a peer only on the single-null-byte read
(`Source/main.cpp:141`). Any other result, including a negative count, leaves
the list alone.

## Model

| member | source | states |
|---|---|---|
| `ServerLoop.Server.constructor` | Source/main.cpp:77-97 | the server listens on port 27015 and its connection list starts as just the listening socket, so the invariant holds from the first push |
| `ServerLoop.Server.DisconnectPeer` | Source/main.cpp:143-151 | the indexed search loop erases the first entry equal to the socket and logs the disconnect only when it found one; the list is unchanged when the socket is absent |
| `ServerLoop.Server.Service` | Source/main.cpp:111-158 | servicing one ready socket, with the receive buffer as a zeroed array, changes the state exactly as `Step` says and keeps the invariant |
| `ServerLoop.Server.Cycle` | Source/main.cpp:108-159 | the loop over the ready snapshot services the sockets in snapshot order (the state after it is `Run` of the snapshot) and keeps the invariant |
| `ServerLoop.Classify` | Source/main.cpp:137-157 | a read is the disconnect signal exactly when it returned 1 and the first buffer byte is 0; it is ignored exactly when it returned 0 or less; otherwise exactly `count` buffer bytes are logged |
| `ServerLoop.StepAccept` | Source/main.cpp:118-128 | accepting appends exactly the new handle at the end and keeps every earlier entry; before that it logs the new connection and sends the peer the 10 bytes "Connected!" |
| `ServerLoop.StepDisconnect` | Source/main.cpp:141-151 | the disconnect signal erases only the first entry equal to the socket, keeps the order of the others and shortens the list by one; an absent socket leaves the state unchanged |
| `ServerLoop.DisconnectTwice` | Source/main.cpp:141-151 | on a list without duplicates, a second disconnect of the same peer changes nothing |
| `ServerLoop.StepOtherRead` | Source/main.cpp:138-157 | every read other than the single null byte leaves the connection list unchanged; a positive count logs exactly that many bytes and a count of 0 or less logs nothing |
| `ServerLoop.StepPreservesInv` | Source/main.cpp:97-152 | the listening socket stays entry 0 and is never removed, and handles stay unique when the accepted handle is fresh |
| `ServerLoop.RunConnections` | Source/main.cpp:97-159 | after a cycle the list is the old list minus the peers that signalled disconnect, in their old order, followed by the peers accepted in the cycle in acceptance order |
| `ServerLoop.RunMembers` | Source/main.cpp:108-159 | after a cycle a handle is listed exactly when it was listed before and did not disconnect, or was accepted; the listening socket is still entry 0 |
| `ServerLoop.Accepts` | Source/main.cpp:119-128 | the handles accepted in a cycle are exactly those of its accept outcomes |
| `ServerLoop.Gone` | Source/main.cpp:141-151 | the peers that disconnect in a cycle were all in the snapshot, and the listening socket is never among them |
| `ServerLoop.GoneSpec` | Source/main.cpp:141-151 | a handle is among those gone after a cycle exactly when some snapshot entry equal to it got a one-byte read whose byte is 0 |
| `Wire.Segment` | Source/main.cpp:137-138 | the 1401-byte zeroed buffer holds the received bytes first and zeros after them, so the byte after the 1400 requested stays 0 |
| `Sequences.RemoveFirst` | Source/main.cpp:144-151 | erasing from a list that holds the value shortens it by one; every other value keeps its membership; a list without the value is unchanged |
| `Sequences.FirstIndex` | Source/main.cpp:144-145 | the first index the search loop stops at holds the value, and no earlier index does |
| `Sequences.RemoveFirstAt` | Source/main.cpp:144-148 | erasing at the first index where the left-to-right search matches is the same as `RemoveFirst`: exactly that entry goes |
| `Sequences.RemoveFirstUnique` | Source/main.cpp:144-151 | on a list without duplicates, erasing the first match removes every occurrence and keeps the list duplicate-free |
| `Sequences.RemoveTwice` | Source/main.cpp:144-151 | erasing the same value twice from a duplicate-free list is the same as erasing it once |
| `ClientLoop.SizeMinusOne` | Source/main.cpp:48 | `size() - 1` is one less than the size, and wraps to 2^64-1 for the empty line |
| `ClientLoop.Substr` | Source/main.cpp:48 | `substr(0, n)` yields the first `n` bytes, or the whole string when `n` exceeds its length |
| `ClientLoop.StripLastDropsTerminator` | Source/main.cpp:47-48 | a non-empty line loses exactly its last byte; an empty line stays empty |
| `ClientLoop.LineToSendSpec` | Source/main.cpp:47-50 | a send happens exactly when the stripped line is non-empty, and it sends that line with its exact length in bytes |
| `ClientLoop.ReceivedToPrintSpec` | Source/main.cpp:54-58 | output appears exactly when more than one byte arrived, and it is "[Server]: " followed by exactly those bytes and a newline |
| `ClientLoop.ClientPass` | Source/main.cpp:44-58 | a pass sends only when a key was hit and the line had more than its terminator, and prints exactly when more than one byte arrived |
| `Launcher.DispatchSpec` | Source/main.cpp:165-180 | fewer than 2 or more than 3 arguments gives the usage role and -1; otherwise '1' selects the server, '2' selects the client (with `argv[2]` only when present), and anything else selects neither; every result other than usage returns 0 |

## Left out

- The networking library (`CreateTCPSocket`, `Bind`, `Listen`, `Accept`, `Send`, `Recieve`, `Select`, `Connect`, `SetNonBlockingMode`, `CreateIPv4FromString`) is not part of this model. Its code is not available, so its results are inputs.
- The model assumes these facts about the library as preconditions. `Recieve(buf, 1400)` returns at most 1400 and writes at most 1400 bytes. `Accept` yields a handle not already in the list. `RunConnections` and `RunMembers` also assume the poller reports only sockets in the list.
- A cycle where `Select` returns false services nothing, so it is not modelled as a separate operation.
- The `while (isRunning)` loops never end, so one server cycle and one client pass are modelled instead.
- Timing is left out: the busy-wait on `Connect` and the 16 ms sleep.
- Console I/O is left out: `KeyboardHit` and `GetLastLine` are an optional line input, and the usage text is shown only as the `Usage` role. The "New connection from" line is recorded as a `NewConnection` event without the address, because `Accept`'s address output is unseen.
- The client's cast of a signed `Recieve` result to `unsigned int` (`Source/main.cpp:54`) is not modelled; the received count is a `nat`. A negative result would become a huge count and build a string past the buffer, and what the library returns there is unseen.
- `Accept` failure is not modelled, because the code sends to the accepted socket unconditionally.
- The bind failure at startup (`Source/main.cpp:89-90`) is not modelled. In that case `RunServer` returns before any cycle runs, and `main` returns 0.
- `ClientLoop.StripLast` requires the line to be shorter than 2^64 bytes, the range of `size_type`.
- `Launcher.Dispatch`: the exit code 0 for the server and client roles is the value `main` returns if those loops ever return; in the code they return only on a bind failure.
