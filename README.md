# DSM simulator coherence engine in Dafny

This project models the coherence engine of `DSMNode`, the node of a small
distributed-shared-memory simulator. `NUM_NODES` (4) nodes each keep two tables
with one entry per shared block (`NUM_BLOCKS` is 8):

- a cache of `LocalBlock { valid, data }`;
- a directory of `DirectoryEntry { owner, sharers }`, which is the node's own view
  of who owns each block.

The nodes talk over pairwise FIFO sockets with four message types: `INVALIDATE`,
`FETCH_REQ`, `FETCH_RES` and `WRITE_CLAIM`. A node changes its tables in three
places. It handles an incoming message under its mutex. It runs a local write
(`writeBlock`): broadcast an invalidate, take ownership, broadcast the claim,
install the value. It runs a local read (`readBlock`): a hit on a valid line, or
a fetch request to the believed owner. A script of `R b` / `W b v` commands,
read by `loadCommands`, drives the operations.

The project has five modules, one file each:

- `Protocol` holds the sizes, the message record, the two table entries and a
  scripted command.
- `Coherence` is the specification of one node. Every handler, `broadcast`,
  `readBlock`, `writeBlock` and the per-command dispatch of `run` is a pure
  transition from the node's tables to new tables plus the sends it made, in
  order. The properties are proved about these functions.
- `Node` is the imperative node. `class DSMNode` has the cache and the directory
  as two arrays that its methods overwrite in place, and an outbox sequence that
  stands for `send`. Each method is proved to perform exactly the `Coherence`
  transition: the new tables equal the function's result, and the outbox gains
  exactly the function's sends. `Broadcast` is the source's loop of sends, with
  its loop invariant.
- `Commands` models `loadCommands` as formatted extraction from an input stream.
  The stream is the unread characters plus the fail flag. `>>` follows the C++
  library rules:
  - skip white space;
  - at end of input, fail and leave the variable as it was;
  - an int with no digits reads as 0 and fails;
  - an int outside 32 bits is clamped and fails.

  The loop is a method proved equal to a recursive `Parse`. `Parse` is proved to
  read back any script written in the generator's one-command-per-line form. Two
  lemmas show what the loop does with malformed input.
- `Cluster` puts all nodes together, one atomic step at a time. It holds the
  node states and a FIFO queue per ordered pair of nodes. A step either
  delivers the oldest message on one queue or runs a local read or write. A
  send on a node's own index goes to the socket slot that `connectAll` never
  fills, so it is lost. Four things are proved over this system:
  - single-writer convergence: after a write and the peers' handling of its
    broadcasts, every node names the writer as owner;
  - fetch correctness: a reader installs the owner's data;
  - the scenario "read 0, write 42 elsewhere, read again sees 42";
  - the weak-consistency window: a peer that fetches between a write's two
    broadcasts keeps the old data after the write has settled.

In three places the code does something a reader of the protocol might not
expect; the model follows the code:

- `writeBlock` does not touch the local sharer set.
- A `FETCH_REQ` for a line the owner holds invalid is answered with that line's
  stale data. It is not reported as an inconsistency.
- The constructor leaves every owner at 0. It does not name a home node (see
  "## Findings").

The cluster model also shows a liveness gap: a node may believe it owns a
block whose line it holds invalid. This happens, for example, when the node
wrote the block, then handled another writer's `INVALIDATE` but not yet that
writer's `WRITE_CLAIM`. As a side effect of the home-node fix in "## Findings",
it also happens to the home node's first read of a block. A read in that state sends
its request on the node's own index, where there is no socket. The request is
lost and gets no reply (`Cluster.SelfFetchIsLost`). The wait loop of `readBlock`
then ends only if some other `FETCH_RES` for the block arrives, such as the answer
to an earlier request the node still has pending, or if another command of the
same node writes the block. The corrected read serves such
a read from the node's own copy (`Coherence.ReadServingOwner`).

## Model

| member | source | states |
|---|---|---|
| `Coherence.Initial` | dsm_simulator.cpp:37-45 | The initial tables as written: every line is invalid with data 0, and every entry has owner 0 and no sharers. |
| `Coherence.InitialWithHome` | dsm_simulator.cpp:44-45 | The corrected initial tables: every line is invalid with data 0, and every entry has the given home node as owner and no sharers. So every owner is a real node. |
| `Coherence.Broadcast` | dsm_simulator.cpp:169-172 | `broadcast` sends only copies of its message, each on a peer index other than the sender's. From a real node it sends `NUM_NODES - 1` of them. |
| `Coherence.BroadcastUpTo` | dsm_simulator.cpp:169-172 | After the first `n` iterations of the loop, the sends are `n` copies of the message, or `n - 1` when the sender's own index is below `n`. Each goes to an index below `n` other than the sender's. |
| `Coherence.BroadcastUpToOrder` | dsm_simulator.cpp:169-172 | The loop's targets strictly increase. Every index below `n` except the sender's own is among them. |
| `Coherence.BroadcastReachesEveryPeer` | dsm_simulator.cpp:169-172 | `broadcast` from a real node sends exactly `NUM_NODES - 1` copies, in increasing index order. Index `i` is targeted if and only if `i` is not the sender's own index. |
| `Coherence.OnInvalidate` | dsm_simulator.cpp:150-152 | `INVALIDATE` clears the valid flag of its block and keeps its data. Every other line and the whole directory are unchanged. |
| `Coherence.OnFetchRes` | dsm_simulator.cpp:157-160 | `FETCH_RES` leaves its block valid with the carried value. Every other line and the whole directory are unchanged. |
| `Coherence.OnWriteClaim` | dsm_simulator.cpp:161-165 | `WRITE_CLAIM` sets the owner of its block to the sender and the sharers to exactly the sender's bit, whatever they were before. The cache and the other entries are unchanged. |
| `Coherence.Handle` | dsm_simulator.cpp:147-167 | `INVALIDATE`, `FETCH_RES` and `WRITE_CLAIM` give exactly the tables of `OnInvalidate`, `OnFetchRes` and `OnWriteClaim`. A message changes only its own block. Only `WRITE_CLAIM` touches the directory. Only `FETCH_REQ` sends, and it changes nothing and sends exactly one `FETCH_RES`, with this node's current data (valid or not), on channel `src - 1`. |
| `Coherence.Read` | dsm_simulator.cpp:174-177 | The read is a hit if and only if the line is valid. A hit returns the cached data and sends nothing. A miss sends exactly one `FETCH_REQ(b, 0, id)` on channel `owner - 1`. |
| `Coherence.Write` | dsm_simulator.cpp:184-190 | After the write, the line is valid with `v` and the owner is the writer. The sharers and all other blocks are unchanged. The sends are the invalidate broadcast followed by the claim broadcast: `2 * (NUM_NODES - 1)` messages, none to self, all with `src == id`. |
| `Coherence.Dispatch` | dsm_simulator.cpp:61-62 | `'R'` reads `args[0]`, changes no table and sends what that read sends. Any other op is exactly the write of `args[1]` to `args[0]`: it installs the value, takes ownership and makes both broadcasts. |
| `Coherence.ReadAfterWrite` | dsm_simulator.cpp:184-190 | Right after its own write, a node's read of that block is a hit with `v` and sends nothing. |
| `Coherence.WriteLeavesOtherBlocks` | dsm_simulator.cpp:184-190 | A write does not change what any other block reads as, or what that read sends. |
| `Coherence.WriteClaimIdempotent` | dsm_simulator.cpp:161-165 | Handling the same `WRITE_CLAIM` twice gives the same result as handling it once. |
| `Coherence.WriteClaimForgetsPrior` | dsm_simulator.cpp:161-165 | Two nodes whose tables differ only in that block's directory entry end equal after the same claim. |
| `Coherence.OnlyFetchResValidates` | dsm_simulator.cpp:147-167 | Among handled messages, an invalid line becomes valid only through a `FETCH_RES` for that block. A local write also validates the line, and a `FETCH_RES` may carry data from before a write (`Cluster.StaleFetchOutlivesWrite`). |
| `Coherence.HandleKeepsOwnersInRange` | dsm_simulator.cpp:161-165 | If every owner is a real node, it stays so after any handled message. |
| `Coherence.WriteKeepsOwnersInRange` | dsm_simulator.cpp:184-187 | If every owner is a real node, it stays so after a write by a real node. |
| `Coherence.ReadTargetsPeer` | dsm_simulator.cpp:175-177 | While owners are real nodes, a miss sends exactly one request, on a socket index in range. That index is the node's own exactly when the node believes itself the owner. |
| `Coherence.InitialReadHasNoPeer` | dsm_simulator.cpp:174-177 | As written, a fresh node's first read of any block sends its request on index -1, an index outside the socket vector (undefined behaviour). |
| `Coherence.InitialWithHomeReadAsksHome` | dsm_simulator.cpp:174-177 | With a home node, the first read of any block asks the home node, on a socket index in range. That index is a peer's exactly when the reader is not the home node. |
| `Coherence.ReadAtOwnerSendsToSelf` | dsm_simulator.cpp:174-177 | A miss at a node that believes itself the owner sends its one `FETCH_REQ` on the node's own index. |
| `Coherence.ReadServingOwner` | dsm_simulator.cpp:174-177 | The corrected read. It is a hit exactly when the line is valid or the node believes itself the owner, and a hit returns the node's own data and sends nothing. Otherwise it is the read as written. |
| `Coherence.ReadServingOwnerNeverSelfSends` | dsm_simulator.cpp:153-155 | The corrected read either completes at once, with the value this node would answer a `FETCH_REQ` with, or sends one request on a peer's index. It never sends on its own index. |
| `Node.DSMNode.constructor` | dsm_simulator.cpp:44-45 | A new node has exactly the tables of `Coherence.Initial` and an empty outbox. |
| `Node.DSMNode.WithHome` | dsm_simulator.cpp:44-45 | The corrected constructor: its tables are `Coherence.InitialWithHome`, so every owner is a real node. |
| `Node.DSMNode.Broadcast` | dsm_simulator.cpp:169-172 | The loop appends exactly `Coherence.Broadcast` to the outbox and keeps the node valid. |
| `Node.DSMNode.Handle` | dsm_simulator.cpp:147-167 | The in-place updates of the two arrays give exactly the tables of `Coherence.Handle`. The outbox gains exactly its sends, and the node stays valid. |
| `Node.DSMNode.ReadBlock` | dsm_simulator.cpp:174-177 | The outcome and the sends are those of `Coherence.Read`. The tables are unchanged and the node stays valid. |
| `Node.DSMNode.WriteBlock` | dsm_simulator.cpp:184-191 | The tables and the outbox change exactly as `Coherence.Write` says, and the node stays valid. |
| `Node.DSMNode.Execute` | dsm_simulator.cpp:60-63 | One command thread changes the tables and the outbox exactly as `Coherence.Dispatch` says, and the node stays valid. |
| `Commands.ExtractChar` | dsm_simulator.cpp:132 | `in >> op` yields a non-blank character and consumes input if and only if the stream does not fail. |
| `Commands.ConvertInt` | dsm_simulator.cpp:133-134 | The numeric conversion always yields a 32-bit value and never grows the input. |
| `Commands.ExtractInt` | dsm_simulator.cpp:133-134 | `in >> b` on a failed stream changes nothing. Otherwise the variable keeps its value or becomes a 32-bit value. |
| `Commands.ParseOne` | dsm_simulator.cpp:132-134 | One loop iteration consumes input. An `'R'` entry carries exactly the new `b` and leaves `v` alone. Any other op carries exactly `b` and `v`. |
| `Commands.Parse` | dsm_simulator.cpp:131-135 | Every entry has a non-blank op, with one int for `'R'` and two for any other op. All ints are 32-bit when the variables start so. |
| `Commands.LoadCommands` | dsm_simulator.cpp:128-136 | The loop collects exactly `Parse` of the whole file: one entry per op token, in file order. |
| `Commands.ConvertIntText` | dsm_simulator.cpp:133-134 | Converting the decimal text of a 32-bit int gives it back without failing, and stops at the next non-digit. |
| `Commands.ExtractIntText` | dsm_simulator.cpp:133-134 | Extracting a blank-separated 32-bit int gives it back, whatever the variable held. |
| `Commands.ParseLine` | dsm_simulator.cpp:132-134 | Reading one written line gives back its command and leaves the stream at the newline. |
| `Commands.ParseScript` | dsm_simulator.cpp:131-135 | Reading a script written one command per line, after any white space, gives back exactly those commands in order. |
| `Commands.LoadGeneratedScript` | dsm_simulator.cpp:128-136 | A script in the generator's form loads as exactly its commands, whatever `b` and `v` held first. |
| `Commands.TruncatedWriteKeepsValue` | dsm_simulator.cpp:131-134 | A `W` cut off after its block still yields an entry, which carries the value left in `v`. |
| `Commands.NonNumericBlockEndsScript` | dsm_simulator.cpp:132-133 | A non-numeric block reads as 0, fails the stream and ends the script. |
| `Cluster.Init` | dsm_simulator.cpp:44-45 | All nodes start from the home-node initial tables. Nothing is in flight and the protocol invariant holds. |
| `Cluster.Post` | dsm_simulator.cpp:170-171 | Each peer's queue gains exactly the messages sent to it, in order. A send on the node's own index is lost. No other queue changes. |
| `Cluster.ToBroadcast` | dsm_simulator.cpp:169-172 | A broadcast puts exactly one copy of its message on each peer's queue, and none on the sender's own. |
| `Cluster.WriteSendsPair` | dsm_simulator.cpp:184-187 | A write puts exactly `INVALIDATE` then `WRITE_CLAIM` on each peer's queue. |
| `Cluster.PostKeepsChannelsOk` | dsm_simulator.cpp:154-155 | What a node sends names a real block and the node itself as sender, so every queue stays well-addressed. |
| `Cluster.Deliver` | dsm_simulator.cpp:141-143 | Handling the oldest message of a queue keeps the protocol invariant. Only the receiver changes, as `Coherence.Handle` says. Its sends go to the back of its own queues. |
| `Cluster.LocalWrite` | dsm_simulator.cpp:184-190 | A write keeps the protocol invariant and appends its sends to the writer's queues. |
| `Cluster.LocalRead` | dsm_simulator.cpp:174-177 | A read keeps the protocol invariant and changes no node. It appends its request to the reader's queue. |
| `Cluster.DrainWritePair` | dsm_simulator.cpp:147-167 | A queue holding a write's two messages drains into exactly the peer's overwritten view, sending nothing. |
| `Cluster.DrainWritePairs` | dsm_simulator.cpp:147-167 | Draining all of a writer's queues overwrites each peer's view and empties the writer's queues. Nothing else changes. |
| `Cluster.WriteSettles` | dsm_simulator.cpp:184-190 | After a write and its delivery from a quiet system: the writer holds its own result, every peer holds its overwritten view, and nothing is in flight. |
| `Cluster.WriteRound` | dsm_simulator.cpp:184-190 | Single-writer convergence. Every node names the writer as owner. The writer holds `v`. Every peer's copy is invalid with its old data, and its sharers are just the writer. No other block changes. |
| `Cluster.SentRequest` | dsm_simulator.cpp:174-177 | A miss puts one `FETCH_REQ` on the queue to the believed owner, and nothing else is in flight. |
| `Cluster.AnswerRequest` | dsm_simulator.cpp:153-156 | The owner answers a lone request with its current data and changes nothing. |
| `Cluster.TakeReply` | dsm_simulator.cpp:157-160 | The reader installs a lone reply, after which nothing is in flight. |
| `Cluster.FetchRound` | dsm_simulator.cpp:153-177 | Fetch correctness. The reader ends with a valid copy of the owner's data, whatever the state of the owner's line, and no other node changes. |
| `Cluster.SelfFetchIsLost` | dsm_simulator.cpp:174-178 | A miss on a line the node believes it owns changes nothing at all, so its request gets no reply. |
| `Cluster.WriteWindowReadIsLost` | dsm_simulator.cpp:150-178 | From any quiet system, node A writes a block and node B then writes it. After A handles B's `INVALIDATE` but before B's `WRITE_CLAIM`, A holds the line invalid and still believes itself the owner, and A's read of the block changes nothing. |
| `Cluster.HomeReadIsLost` | dsm_simulator.cpp:174-178 | In the home-node start, the home node's first read of a block is such a miss, and it changes nothing. |
| `Cluster.CorrectedReadCompletes` | dsm_simulator.cpp:153-177 | With the corrected read, a read from a quiet system always completes. Either it hits the node's own data, or it is a miss on another owner and the fetch round leaves the line a hit with the owner's data. |
| `Cluster.HomeReadServed` | dsm_simulator.cpp:174-177 | With the corrected read, the home node's first read of a block is a hit with the initial 0. |
| `Cluster.StaleFetchOutlivesWrite` | dsm_simulator.cpp:147-190 | The window on the peers' side. With node 1 as home, node 2 writes 42. Node 3 handles the `INVALIDATE`, reads and fetches 0 from node 1, then handles the `WRITE_CLAIM`. Node 3 names node 2 as owner but reads the stale 0 as a hit, while node 2 holds 42. |
| `Cluster.ReadSeesLatestWrite` | dsm_simulator.cpp:147-190 | With node 1 as home, node 2 first reads 0. Node 1 then writes 42, which invalidates node 2's copy. Node 2's next read fetches and then hits 42. |

## Left out

- Socket creation, `bind`/`listen`, and the connect/accept handshake
  (dsm_simulator.cpp:92-126) are network I/O. The model keeps only their outcome:
  one FIFO channel per ordered pair of nodes, and no socket for a node's own
  index.
- Reading the peer list (dsm_simulator.cpp:82-90) and `main`
  (dsm_simulator.cpp:196-198) are file I/O and process start-up.
- Threads, `join`/`detach` and the blocking `recv` loop (dsm_simulator.cpp:52-68,
  138-145) are concurrency and I/O. The cluster model delivers one message or
  runs one operation at a time and says nothing about interleavings.
- The data races of `readBlock` and `writeBlock`, which touch the tables outside
  the mutex (dsm_simulator.cpp:175, 177, 186), are not modelled. Each operation
  is atomic, so the writer's own intermediate states (dsm_simulator.cpp:185-190)
  are not explored. For example, a `FETCH_REQ` handled between the claim
  broadcast and the install would be answered with the old data. Peers handle the
  two broadcasts in separate steps, so the window on their side is reachable
  (`Cluster.WriteWindowReadIsLost`, `Cluster.StaleFetchOutlivesWrite`).
- Console output (dsm_simulator.cpp:181, 192).
- The byte layout of the packed `Message` and its 32-bit fields. Block, value and
  sender are unbounded integers in the model. Values that come from the script
  are 32-bit, because `Commands` clamps them.
- The generator `generate_command.cpp` uses randomness, a floating-point ratio and
  file output. Only the format it writes is modelled (`Commands.Script`).
- Node.DSMNode.ReadBlock: models the read up to its request. The sleep-poll wait
  (dsm_simulator.cpp:178) and the value printed at the end are not modelled. The
  later `FETCH_RES` handler completes the read, as `Cluster.FetchRound` shows.
- Coherence.Read: the same as `Node.DSMNode.ReadBlock`. A miss yields `Requested`,
  not the value that arrives later.
- Coherence.Handle: requires a block inside the tables, and a real sender for
  `FETCH_REQ` and `WRITE_CLAIM`. The source checks neither. A bad block, or a bad
  `FETCH_REQ` sender, indexes a vector out of range, which is undefined behaviour.
  A bad `WRITE_CLAIM` sender makes `std::bitset::set` throw `std::out_of_range`
  after the owner is already set (dsm_simulator.cpp:162-164). Nothing catches it
  in the receiver thread, so the node process terminates. The model does not
  capture either outcome.
- Node.DSMNode.Execute: requires the command's block to be inside the tables and
  a `W` to carry its value, for the same reason.
- Commands.LoadCommands: the uninitialised locals `b` and `v` are parameters,
  since their first values are indeterminate.
- Cluster.Init: every cluster theorem starts from the home-node tables, and the
  protocol invariant requires every owner to be a real node. That is the
  corrected start, not the owner-0 start the constructor leaves. The convergence
  of a write (`Cluster.WriteRound`) never reads an owner, but the model does not
  state it for the owner-0 start.
- Commands.ExtractChar: the source reads `op` into a one-byte C++ `char`. The
  model reads Unicode characters, so a script with non-ASCII op characters is
  split differently.
- The source as given uses `vector<int>` without the `std::` prefix and without a
  `using` declaration (dsm_simulator.cpp:133-134), so it does not compile as it
  stands. The model assumes `std::vector` was meant.
- Cluster.WriteRound and Cluster.FetchRound: stated for one operation started
  from a quiet system. Concurrent writers and overlapping operations are not
  covered.

## Findings

| source | as written | input that shows it | evidently intended | confidence | as-written member | corrected member |
|---|---|---|---|---|---|---|
| dsm_simulator.cpp:45 | The directory vector is value-initialised, so every owner starts at 0. The first read of a block then sends its `FETCH_REQ` on `sockets[owner - 1]`, which is index -1: an index outside the socket vector, so the indexing is undefined behaviour. | A fresh node runs `R 0` before any write to block 0. | Every block starts with a designated home node in 1..`NUM_NODES` as owner. The first read by any other node then asks the home node. This rule fixes non-home readers only: the home node's own first read is the next row. | high; not executed | `Coherence.InitialReadHasNoPeer` | `Coherence.InitialWithHomeReadAsksHome` |
| dsm_simulator.cpp:175-178 | A node that believes itself the owner of a block whose line it holds invalid sends its `FETCH_REQ` on its own index. `sockets[id - 1]` stays -1, so the request is lost and the read waits for a reply that its own request never produces. | Node A writes block b, then node B writes b. A reads b after handling B's `INVALIDATE` and before B's `WRITE_CLAIM`. As a side effect of the fix in the row above, the home node's first read of a block also hits this case. | The believed owner serves the read from its own copy, which is the copy it would answer a `FETCH_REQ` with. | medium; not executed | `Cluster.WriteWindowReadIsLost` | `Cluster.CorrectedReadCompletes` |
