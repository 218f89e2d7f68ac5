/** Shared vocabulary of the simulator: the compile-time sizes, the wire message,
    the two per-block table entries and a scripted command. */
module Protocol {

  /** Number of participating nodes; NodeIDs run from 1 to NUM_NODES. */
  const NUM_NODES: int := 4
  /** Number of shared blocks; BlockIDs run from 0 to NUM_BLOCKS - 1. */
  const NUM_BLOCKS: int := 8

  predicate IsNodeId(n: int) { 1 <= n <= NUM_NODES }
  predicate IsBlock(b: int) { 0 <= b < NUM_BLOCKS }
  /** A peer index, as used to select a socket: NodeID - 1. */
  predicate IsChannel(i: int) { 0 <= i < NUM_NODES }

  datatype MessageType = Invalidate | FetchReq | FetchRes | WriteClaim

  /** The packed record that goes over a socket verbatim. */
  datatype Message = Message(mtype: MessageType, block: int, value: int, src: int)

  /** One call of `send`: the message and the index of the socket it was written to. */
  datatype Envelope = Envelope(channel: int, msg: Message)

  /** A node's copy of one block. */
  datatype LocalBlock = LocalBlock(valid: bool, data: int)

  /** A node's view of who owns one block; `sharers` holds bit positions (NodeID - 1)
      of a bitset of width NUM_NODES. */
  datatype DirectoryEntry = DirectoryEntry(owner: int, sharers: set<int>)

  /** One scripted operation: the op character and the integers read after it. */
  datatype Command = Command(op: char, args: seq<int>)

  /** What a handler may index with: the block always, and the sender's NodeID for
      the two message types whose handlers use it (`sockets[src-1]`, `sharers.set(src-1)`). */
  predicate Acceptable(m: Message)
  {
    IsBlock(m.block) &&
    (m.mtype == FetchReq || m.mtype == WriteClaim ==> IsNodeId(m.src))
  }

  /** A command the dispatcher can run: a read carries its block, anything else a
      block and a value, and the block indexes the tables. */
  predicate Runnable(c: Command)
  {
    |c.args| >= (if c.op == 'R' then 1 else 2) && IsBlock(c.args[0])
  }
}
