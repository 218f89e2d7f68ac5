/** The coherence engine of one node as pure state transitions: what each incoming
    message, each local write and each local read does to the node's cache and
    directory, and which messages it sends. Each step is atomic, as the node's
    mutex makes the message handler. */
module Coherence {
  import opened Protocol

  /** The two per-block tables of one node. */
  datatype NodeState = NodeState(cache: seq<LocalBlock>, directory: seq<DirectoryEntry>)

  /** A state change together with the sends it performed, in order. */
  datatype Step = Step(state: NodeState, sent: seq<Envelope>)

  /** The result of `readBlock`: a cache hit with its value, or a fetch request issued
      (the later FETCH_RES handler completes the read). */
  datatype ReadOutcome = Hit(value: int) | Requested

  /** A read changes no table; it only may send. */
  datatype ReadStep = ReadStep(outcome: ReadOutcome, sent: seq<Envelope>)

  predicate WellFormed(s: NodeState)
  {
    |s.cache| == NUM_BLOCKS && |s.directory| == NUM_BLOCKS
  }

  /** `s` and `t` hold the same cache line and directory entry for every block but `b`. */
  predicate SameExcept(s: NodeState, t: NodeState, b: int)
    requires WellFormed(s) && WellFormed(t)
  {
    forall k | 0 <= k < NUM_BLOCKS && k != b :: s.cache[k] == t.cache[k] && s.directory[k] == t.directory[k]
  }

  /** Every directory entry names a real node as owner. */
  predicate OwnersInRange(s: NodeState)
    requires WellFormed(s)
  {
    forall k | 0 <= k < NUM_BLOCKS :: IsNodeId(s.directory[k].owner)
  }

  // ---------------------------------------------------------------------------
  // Initial state

  /** The tables as the constructor leaves them: every line invalid with data 0, and
      every directory entry value-initialised, i.e. owner 0 and no sharers. Owner 0
      is not a NodeID. */
  function Initial(): (s: NodeState)
    ensures WellFormed(s)
    ensures forall k | 0 <= k < NUM_BLOCKS :: !s.cache[k].valid && s.cache[k].data == 0
    ensures forall k | 0 <= k < NUM_BLOCKS :: s.directory[k].owner == 0 && s.directory[k].sharers == {}
  {
    NodeState(seq(NUM_BLOCKS, _ => LocalBlock(false, 0)), seq(NUM_BLOCKS, _ => DirectoryEntry(0, {})))
  }

  /** The initial state with a designated home node owning every block: the rule the
      constructor lacks (see InitialReadHasNoPeer). */
  function InitialWithHome(home: int): (s: NodeState)
    requires IsNodeId(home)
    ensures WellFormed(s) && OwnersInRange(s)
    ensures forall k | 0 <= k < NUM_BLOCKS :: !s.cache[k].valid && s.cache[k].data == 0
    ensures forall k | 0 <= k < NUM_BLOCKS :: s.directory[k].owner == home && s.directory[k].sharers == {}
  {
    NodeState(seq(NUM_BLOCKS, _ => LocalBlock(false, 0)), seq(NUM_BLOCKS, _ => DirectoryEntry(home, {})))
  }

  // ---------------------------------------------------------------------------
  // broadcast

  /** The sends of the first `n` iterations of the broadcast loop of node `id`:
      one copy of `m` to every peer index below `n` other than `id - 1`. */
  function BroadcastUpTo(id: int, m: Message, n: nat): (r: seq<Envelope>)
    ensures |r| == if 1 <= id <= n then n - 1 else n
    ensures forall k | 0 <= k < |r| :: r[k].msg == m && 0 <= r[k].channel < n && r[k].channel != id - 1
  {
    if n == 0 then []
    else
      var prefix := BroadcastUpTo(id, m, n - 1);
      if n != id then prefix + [Envelope(n - 1, m)] else prefix
  }

  /** What `broadcast(m)` sends from node `id`: copies of `m` only, each to a peer index
      other than `id - 1`, one per peer when `id` is a NodeID. */
  function Broadcast(id: int, m: Message): (r: seq<Envelope>)
    ensures IsNodeId(id) ==> |r| == NUM_NODES - 1
    ensures forall k | 0 <= k < |r| :: r[k].msg == m && IsChannel(r[k].channel) && r[k].channel != id - 1
  {
    BroadcastUpTo(id, m, NUM_NODES)
  }

  /** The broadcast loop reaches the peers in increasing index order, each one exactly
      once: every index below `n` but `id - 1` is a target. */
  lemma {:induction false} BroadcastUpToOrder(id: int, m: Message, n: nat)
    ensures forall j, k | 0 <= j < k < |BroadcastUpTo(id, m, n)| ::
      BroadcastUpTo(id, m, n)[j].channel < BroadcastUpTo(id, m, n)[k].channel
    ensures forall i | 0 <= i < n && i != id - 1 :: Envelope(i, m) in BroadcastUpTo(id, m, n)
  {
    if n > 0 {
      BroadcastUpToOrder(id, m, n - 1);
      var prefix := BroadcastUpTo(id, m, n - 1);
      if n != id {
        assert BroadcastUpTo(id, m, n) == prefix + [Envelope(n - 1, m)];
      }
    }
  }

  /** A node in range broadcasts to exactly NUM_NODES - 1 peers, in increasing index
      order, each one once and never to itself. */
  lemma BroadcastReachesEveryPeer(id: int, m: Message)
    requires IsNodeId(id)
    ensures |Broadcast(id, m)| == NUM_NODES - 1
    ensures forall j, k | 0 <= j < k < |Broadcast(id, m)| :: Broadcast(id, m)[j].channel < Broadcast(id, m)[k].channel
    ensures forall i | IsChannel(i) :: (Envelope(i, m) in Broadcast(id, m) <==> i != id - 1)
  {
    BroadcastUpToOrder(id, m, NUM_NODES);
  }

  // ---------------------------------------------------------------------------
  // Message handlers

  /** INVALIDATE: the line of block `b` stops being valid; its data stays, and so does
      everything else. */
  function OnInvalidate(s: NodeState, b: int): (r: NodeState)
    requires WellFormed(s) && IsBlock(b)
    ensures WellFormed(r) && SameExcept(s, r, b)
    ensures !r.cache[b].valid && r.cache[b].data == s.cache[b].data
    ensures r.directory == s.directory
  {
    s.(cache := s.cache[b := s.cache[b].(valid := false)])
  }

  /** FETCH_RES: the line of block `b` becomes a valid copy of `v`; nothing else changes. */
  function OnFetchRes(s: NodeState, b: int, v: int): (r: NodeState)
    requires WellFormed(s) && IsBlock(b)
    ensures WellFormed(r) && SameExcept(s, r, b)
    ensures r.cache[b] == LocalBlock(true, v)
    ensures r.directory == s.directory
  {
    s.(cache := s.cache[b := s.cache[b].(data := v).(valid := true)])
  }

  /** WRITE_CLAIM: node `src` becomes owner and sole sharer (bit `src - 1`) of block `b`,
      whatever the entry held before; the cache does not change. */
  function OnWriteClaim(s: NodeState, b: int, src: int): (r: NodeState)
    requires WellFormed(s) && IsBlock(b) && IsNodeId(src)
    ensures WellFormed(r) && SameExcept(s, r, b)
    ensures r.directory[b].owner == src && r.directory[b].sharers == {src - 1}
    ensures r.cache == s.cache
  {
    var cleared := s.directory[b].(sharers := {});
    s.(directory := s.directory[b := cleared.(owner := src).(sharers := cleared.sharers + {src - 1})])
  }

  /** `handle(msg)` on node `id`: only block `msg.block` may change; only FETCH_REQ sends,
      and it sends exactly one FETCH_RES carrying this node's current data for the block
      (valid or not) back on the requester's channel, changing nothing. */
  function Handle(s: NodeState, id: int, m: Message): (r: Step)
    requires WellFormed(s) && Acceptable(m)
    ensures WellFormed(r.state) && SameExcept(s, r.state, m.block)
    ensures m.mtype != WriteClaim ==> r.state.directory == s.directory
    ensures m.mtype != FetchReq ==> r.sent == []
    ensures m.mtype == Invalidate ==> r.state == OnInvalidate(s, m.block)
    ensures m.mtype == FetchRes ==> r.state == OnFetchRes(s, m.block, m.value)
    ensures m.mtype == WriteClaim ==> r.state == OnWriteClaim(s, m.block, m.src)
    ensures m.mtype == FetchReq ==>
      r.state == s && |r.sent| == 1 && IsChannel(r.sent[0].channel) && r.sent[0].channel == m.src - 1 &&
      r.sent[0].msg == Message(FetchRes, m.block, s.cache[m.block].data, id)
  {
    match m.mtype
    case Invalidate => Step(OnInvalidate(s, m.block), [])
    case FetchReq => Step(s, [Envelope(m.src - 1, Message(FetchRes, m.block, s.cache[m.block].data, id))])
    case FetchRes => Step(OnFetchRes(s, m.block, m.value), [])
    case WriteClaim => Step(OnWriteClaim(s, m.block, m.src), [])
  }

  // ---------------------------------------------------------------------------
  // Local operations

  /** `readBlock(b)` on node `id`: a valid line is a hit that sends nothing; an invalid
      line sends one FETCH_REQ (value 0, src `id`) to the believed owner's channel. */
  function Read(s: NodeState, id: int, b: int): (r: ReadStep)
    requires WellFormed(s) && IsBlock(b)
    ensures r.outcome.Hit? <==> s.cache[b].valid
    ensures r.outcome.Hit? ==> r.outcome.value == s.cache[b].data && r.sent == []
    ensures r.outcome.Requested? ==>
      r.sent == [Envelope(s.directory[b].owner - 1, Message(FetchReq, b, 0, id))]
  {
    if s.cache[b].valid then ReadStep(Hit(s.cache[b].data), [])
    else ReadStep(Requested, [Envelope(s.directory[b].owner - 1, Message(FetchReq, b, 0, id))])
  }

  /** `writeBlock(b, v)` on node `id`: broadcast INVALIDATE, take ownership, broadcast
      WRITE_CLAIM, install `v`. The local sharer set is left as it was. Every send goes
      to a peer other than `id`, all INVALIDATEs before all WRITE_CLAIMs. */
  function Write(s: NodeState, id: int, b: int, v: int): (r: Step)
    requires WellFormed(s) && IsBlock(b)
    ensures WellFormed(r.state) && SameExcept(s, r.state, b)
    ensures r.state.cache[b] == LocalBlock(true, v)
    ensures r.state.directory[b].owner == id && r.state.directory[b].sharers == s.directory[b].sharers
    ensures IsNodeId(id) ==> |r.sent| == 2 * (NUM_NODES - 1)
    ensures forall k | 0 <= k < |r.sent| ::
      r.sent[k].channel != id - 1 &&
      r.sent[k].msg == Message(if k < |r.sent| / 2 then Invalidate else WriteClaim, b, 0, id)
    ensures r.sent == Broadcast(id, Message(Invalidate, b, 0, id)) + Broadcast(id, Message(WriteClaim, b, 0, id))
  {
    var inv := Message(Invalidate, b, 0, id);
    var claim := Message(WriteClaim, b, 0, id);
    var owned := s.(directory := s.directory[b := s.directory[b].(owner := id)]);
    var installed := owned.(cache := owned.cache[b := owned.cache[b].(data := v).(valid := true)]);
    Step(installed, Broadcast(id, inv) + Broadcast(id, claim))
  }

  /** The per-command dispatch of `run`: 'R' reads `args[0]`, any other op writes
      `args[1]` to `args[0]`. */
  function Dispatch(s: NodeState, id: int, c: Command): (r: Step)
    requires WellFormed(s) && Runnable(c)
    ensures WellFormed(r.state)
    ensures c.op == 'R' ==> r.state == s && r.sent == Read(s, id, c.args[0]).sent
    ensures c.op != 'R' ==> r.state.cache[c.args[0]] == LocalBlock(true, c.args[1])
    ensures c.op != 'R' ==> r == Write(s, id, c.args[0], c.args[1])
  {
    if c.op == 'R' then Step(s, Read(s, id, c.args[0]).sent)
    else Write(s, id, c.args[0], c.args[1])
  }

  // ---------------------------------------------------------------------------
  // Properties

  /** Read-after-local-write: right after `writeBlock(b, v)` the same node reads `v`
      from its cache, without sending anything. */
  lemma ReadAfterWrite(s: NodeState, id: int, b: int, v: int)
    requires WellFormed(s) && IsBlock(b)
    ensures Read(Write(s, id, b, v).state, id, b) == ReadStep(Hit(v), [])
  {
  }

  /** A write changes no other block, and the other blocks still read as before. */
  lemma WriteLeavesOtherBlocks(s: NodeState, id: int, b: int, v: int, k: int)
    requires WellFormed(s) && IsBlock(b) && IsBlock(k) && k != b
    ensures Read(Write(s, id, b, v).state, id, k) == Read(s, id, k)
  {
  }

  /** Applying the same WRITE_CLAIM twice gives the state of applying it once. */
  lemma WriteClaimIdempotent(s: NodeState, id: int, m: Message)
    requires WellFormed(s) && Acceptable(m) && m.mtype == WriteClaim
    ensures Handle(Handle(s, id, m).state, id, m) == Handle(s, id, m)
  {
  }

  /** A WRITE_CLAIM overrides whatever the directory entry of its block held: two states
      that differ only there end equal. */
  lemma WriteClaimForgetsPrior(s: NodeState, t: NodeState, b: int, src: int)
    requires WellFormed(s) && WellFormed(t) && IsBlock(b) && IsNodeId(src)
    requires s.cache == t.cache && SameExcept(s, t, b)
    ensures OnWriteClaim(s, b, src) == OnWriteClaim(t, b, src)
  {
  }

  /** Among handled messages, an invalid line becomes valid only through a FETCH_RES for
      its block. No other message undoes an invalidation; a local write, or a FETCH_RES
      carrying data from before a write, still can. */
  lemma OnlyFetchResValidates(s: NodeState, id: int, m: Message, b: int)
    requires WellFormed(s) && Acceptable(m) && IsBlock(b)
    requires !s.cache[b].valid
    requires Handle(s, id, m).state.cache[b].valid
    ensures m.mtype == FetchRes && m.block == b
  {
  }

  /** Handling any acceptable message keeps every owner a real node. */
  lemma HandleKeepsOwnersInRange(s: NodeState, id: int, m: Message)
    requires WellFormed(s) && OwnersInRange(s) && Acceptable(m)
    ensures OwnersInRange(Handle(s, id, m).state)
  {
  }

  /** A write by a real node keeps every owner a real node. */
  lemma WriteKeepsOwnersInRange(s: NodeState, id: int, b: int, v: int)
    requires WellFormed(s) && OwnersInRange(s) && IsNodeId(id) && IsBlock(b)
    ensures OwnersInRange(Write(s, id, b, v).state)
  {
  }

  /** While owners are real nodes, a fetch request goes out on a socket index in range.
      That index is a peer's exactly when the believed owner is another node; when the
      node believes itself the owner, the request goes to its own index. */
  lemma ReadTargetsPeer(s: NodeState, id: int, b: int)
    requires WellFormed(s) && OwnersInRange(s) && IsBlock(b) && !s.cache[b].valid
    ensures |Read(s, id, b).sent| == 1 && IsChannel(Read(s, id, b).sent[0].channel)
    ensures Read(s, id, b).sent[0].channel == id - 1 <==> s.directory[b].owner == id
  {
  }

  /** As written, a fresh node's first read of any block sends its FETCH_REQ to index -1:
      the owner field was never set, so `owner - 1` is an index outside the socket vector,
      and using it is undefined behaviour. */
  lemma InitialReadHasNoPeer(id: int, b: int)
    requires IsBlock(b)
    ensures Read(Initial(), id, b).sent == [Envelope(-1, Message(FetchReq, b, 0, id))]
    ensures !IsChannel(Read(Initial(), id, b).sent[0].channel)
  {
  }

  /** With a home node, the first read of a block asks the home node, on a real socket
      index. That index is a peer's for every node but the home node itself, whose own
      request goes to its own index (see ReadAtOwnerSendsToSelf). */
  lemma InitialWithHomeReadAsksHome(home: int, id: int, b: int)
    requires IsNodeId(home) && IsBlock(b)
    ensures Read(InitialWithHome(home), id, b).sent == [Envelope(home - 1, Message(FetchReq, b, 0, id))]
    ensures IsChannel(home - 1)
    ensures Read(InitialWithHome(home), id, b).sent[0].channel != id - 1 <==> id != home
  {
  }

  // ---------------------------------------------------------------------------
  // A read at the believed owner

  /** As written, a node that believes itself the owner of a block whose line it holds
      invalid sends its FETCH_REQ to its own socket index, where no socket is. */
  lemma ReadAtOwnerSendsToSelf(s: NodeState, id: int, b: int)
    requires WellFormed(s) && IsBlock(b)
    requires !s.cache[b].valid && s.directory[b].owner == id
    ensures Read(s, id, b).outcome == Requested
    ensures Read(s, id, b).sent == [Envelope(id - 1, Message(FetchReq, b, 0, id))]
  {
  }

  /** The read the protocol evidently intends at the believed owner: the owner's copy is
      the one a FETCH_REQ is answered with, so a node that believes itself the owner
      serves the read from its own copy instead of asking itself. Otherwise as `Read`. */
  function ReadServingOwner(s: NodeState, id: int, b: int): (r: ReadStep)
    requires WellFormed(s) && IsBlock(b)
    ensures r.outcome.Hit? <==> s.cache[b].valid || s.directory[b].owner == id
    ensures r.outcome.Hit? ==> r.outcome.value == s.cache[b].data && r.sent == []
    ensures r.outcome.Requested? ==> r == Read(s, id, b)
  {
    if s.cache[b].valid || s.directory[b].owner == id then ReadStep(Hit(s.cache[b].data), [])
    else Read(s, id, b)
  }

  /** The corrected read never sends to its own index: it completes at once with the
      value this node would answer a FETCH_REQ with, or it sends one request on a peer's
      index. */
  lemma ReadServingOwnerNeverSelfSends(s: NodeState, id: int, b: int)
    requires WellFormed(s) && OwnersInRange(s) && IsNodeId(id) && IsBlock(b)
    ensures var r := ReadServingOwner(s, id, b);
      (r.outcome.Hit? && r.sent == [] &&
       r.outcome.value == Handle(s, id, Message(FetchReq, b, 0, id)).sent[0].msg.value) ||
      (|r.sent| == 1 && IsChannel(r.sent[0].channel) && r.sent[0].channel != id - 1)
  {
    if !s.cache[b].valid && s.directory[b].owner != id {
      ReadTargetsPeer(s, id, b);
    }
  }
}
