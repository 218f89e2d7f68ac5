/** All NUM_NODES nodes together, run one atomic step at a time: a node handles the
    oldest message on one of its incoming channels, or performs a local read or write.
    Channels are the pairwise FIFO sockets; a send on a node's own index goes to the
    socket -1 that `connectAll` never replaces, and is lost. Every node starts from the
    initial state with a home node (Coherence.InitialWithHome). */
module Cluster {
  import opened Protocol
  import opened Coherence

  /** `nodes[i]` is the node with NodeID i + 1; `chans[i][j]` holds what node i + 1 has
      sent to node j + 1 that node j + 1 has not yet handled, oldest first. */
  datatype System = System(nodes: seq<NodeState>, chans: seq<seq<seq<Message>>>)

  predicate Shape(chans: seq<seq<seq<Message>>>)
  {
    |chans| == NUM_NODES && forall i | 0 <= i < NUM_NODES :: |chans[i]| == NUM_NODES
  }

  /** Every message on a channel from node index `from` names a block and its sender. */
  predicate ChannelOk(q: seq<Message>, from: int)
  {
    forall k | 0 <= k < |q| :: IsBlock(q[k].block) && q[k].src == from + 1
  }

  /** The protocol invariant: well-formed tables whose owners are real nodes, no message
      to oneself in flight, and every message in flight well-addressed. */
  predicate Inv(c: System)
  {
    |c.nodes| == NUM_NODES && Shape(c.chans) &&
    (forall i | 0 <= i < NUM_NODES :: WellFormed(c.nodes[i]) && OwnersInRange(c.nodes[i])) &&
    (forall i | 0 <= i < NUM_NODES :: c.chans[i][i] == []) &&
    (forall i, j | 0 <= i < NUM_NODES && 0 <= j < NUM_NODES :: ChannelOk(c.chans[i][j], i))
  }

  /** No message in flight. */
  predicate Quiet(c: System)
    requires Shape(c.chans)
  {
    forall i, j | 0 <= i < NUM_NODES && 0 <= j < NUM_NODES :: c.chans[i][j] == []
  }

  function Init(home: int): (c: System)
    requires IsNodeId(home)
    ensures Inv(c) && Quiet(c)
    ensures forall i | 0 <= i < NUM_NODES :: c.nodes[i] == InitialWithHome(home)
  {
    System(seq(NUM_NODES, _ => InitialWithHome(home)), seq(NUM_NODES, _ => seq(NUM_NODES, _ => [])))
  }

  // ---------------------------------------------------------------------------
  // Sending

  /** The messages among `sent` that went to channel `j`, in order. */
  function To(sent: seq<Envelope>, j: int): seq<Message>
  {
    if sent == [] then [] else (if sent[0].channel == j then [sent[0].msg] else []) + To(sent[1..], j)
  }

  /** One send by node index `i`; its own index, like any index that is not a peer's,
      leads nowhere. */
  function Enqueue(chans: seq<seq<seq<Message>>>, i: int, e: Envelope): (r: seq<seq<seq<Message>>>)
    requires Shape(chans) && IsChannel(i)
    ensures Shape(r)
    ensures forall q | 0 <= q < NUM_NODES && q != i && q == e.channel :: r[i][q] == chans[i][q] + [e.msg]
    ensures forall p, q | 0 <= p < NUM_NODES && 0 <= q < NUM_NODES && (p != i || q == i || q != e.channel) :: r[p][q] == chans[p][q]
  {
    if e.channel == i || !IsChannel(e.channel) then chans
    else chans[i := chans[i][e.channel := chans[i][e.channel] + [e.msg]]]
  }

  /** The sends of one step of node index `i`, in order: each peer's channel gains exactly
      the messages addressed to it, and no other channel changes. */
  function Post(chans: seq<seq<seq<Message>>>, i: int, sent: seq<Envelope>): (r: seq<seq<seq<Message>>>)
    requires Shape(chans) && IsChannel(i)
    ensures Shape(r)
    ensures forall q | 0 <= q < NUM_NODES && q != i :: r[i][q] == chans[i][q] + To(sent, q)
    ensures forall p, q | 0 <= p < NUM_NODES && 0 <= q < NUM_NODES && (p != i || q == i) :: r[p][q] == chans[p][q]
    decreases |sent|
  {
    if sent == [] then chans
    else
      var mid := Enqueue(chans, i, sent[0]);
      var r := Post(mid, i, sent[1..]);
      PostStep(chans, i, sent, mid, r);
      r
  }

  lemma PostStep(chans: seq<seq<seq<Message>>>, i: int, sent: seq<Envelope>,
                 mid: seq<seq<seq<Message>>>, r: seq<seq<seq<Message>>>)
    requires Shape(chans) && IsChannel(i) && sent != []
    requires Shape(mid)
    requires forall q | 0 <= q < NUM_NODES && q != i && q == sent[0].channel :: mid[i][q] == chans[i][q] + [sent[0].msg]
    requires forall p, q | 0 <= p < NUM_NODES && 0 <= q < NUM_NODES && (p != i || q == i || q != sent[0].channel) :: mid[p][q] == chans[p][q]
    requires Shape(r)
    requires forall q | 0 <= q < NUM_NODES && q != i :: r[i][q] == mid[i][q] + To(sent[1..], q)
    requires forall p, q | 0 <= p < NUM_NODES && 0 <= q < NUM_NODES && (p != i || q == i) :: r[p][q] == mid[p][q]
    ensures forall q | 0 <= q < NUM_NODES && q != i :: r[i][q] == chans[i][q] + To(sent, q)
    ensures forall p, q | 0 <= p < NUM_NODES && 0 <= q < NUM_NODES && (p != i || q == i) :: r[p][q] == chans[p][q]
  {
    forall q | 0 <= q < NUM_NODES && q != i
      ensures r[i][q] == chans[i][q] + To(sent, q)
    {
      PostStepAt(chans[i][q], sent, q, mid[i][q], r[i][q]);
    }
  }

  /** One peer's channel across one send and the rest of the sends. */
  lemma PostStepAt(ch: seq<Message>, sent: seq<Envelope>, q: int, mid: seq<Message>, r: seq<Message>)
    requires sent != []
    requires mid == if sent[0].channel == q then ch + [sent[0].msg] else ch
    requires r == mid + To(sent[1..], q)
    ensures r == ch + To(sent, q)
  {
    var e := sent[0];
    if e.channel == q {
      assert To(sent, q) == [e.msg] + To(sent[1..], q);
      assert (ch + [e.msg]) + To(sent[1..], q) == ch + ([e.msg] + To(sent[1..], q));
    } else {
      assert To(sent, q) == To(sent[1..], q);
    }
  }

  lemma {:induction false} ToAppend(a: seq<Envelope>, b: seq<Envelope>, j: int)
    ensures To(a + b, j) == To(a, j) + To(b, j)
  {
    if a == [] {
      assert a + b == b;
    } else {
      var x := if a[0].channel == j then [a[0].msg] else [];
      assert (a + b)[0] == a[0];
      assert (a + b)[1..] == a[1..] + b;
      ToAppend(a[1..], b, j);
      calc {
        To(a + b, j);
        x + To(a[1..] + b, j);
        x + (To(a[1..], j) + To(b, j));
        (x + To(a[1..], j)) + To(b, j);
        To(a, j) + To(b, j);
      }
    }
  }

  /** A broadcast puts exactly one copy of its message on every peer channel. */
  lemma {:induction false} ToBroadcast(id: int, m: Message, n: nat, j: int)
    ensures To(BroadcastUpTo(id, m, n), j) == if 0 <= j < n && j != id - 1 then [m] else []
  {
    if n > 0 {
      var prefix := BroadcastUpTo(id, m, n - 1);
      ToBroadcast(id, m, n - 1, j);
      if n != id {
        var last := [Envelope(n - 1, m)];
        assert BroadcastUpTo(id, m, n) == prefix + last;
        ToAppend(prefix, last, j);
        assert last[1..] == [];
        assert To(last, j) == if j == n - 1 then [m] else [];
      } else {
        assert BroadcastUpTo(id, m, n) == prefix;
      }
    }
  }

  /** What `writeBlock(b, v)` at node `id` puts on channel `j`: INVALIDATE then WRITE_CLAIM
      for every peer, nothing for itself. */
  lemma WriteSendsPair(s: NodeState, id: int, b: int, v: int, j: int)
    requires WellFormed(s) && IsBlock(b) && IsNodeId(id) && IsChannel(j)
    ensures To(Write(s, id, b, v).sent, j) ==
      if j == id - 1 then [] else [Message(Invalidate, b, 0, id), Message(WriteClaim, b, 0, id)]
  {
    var inv := Message(Invalidate, b, 0, id);
    var claim := Message(WriteClaim, b, 0, id);
    ToAppend(Broadcast(id, inv), Broadcast(id, claim), j);
    ToBroadcast(id, inv, NUM_NODES, j);
    ToBroadcast(id, claim, NUM_NODES, j);
  }

  lemma ToSingle(e: Envelope, q: int)
    ensures To([e], q) == if e.channel == q then [e.msg] else []
  {
    assert [e][1..] == [];
  }

  /** Two channel tables are equal when every channel is. */
  lemma ChansExt(a: seq<seq<seq<Message>>>, b: seq<seq<seq<Message>>>)
    requires Shape(a) && Shape(b)
    requires forall p, q | 0 <= p < NUM_NODES && 0 <= q < NUM_NODES :: a[p][q] == b[p][q]
    ensures a == b
  {
    forall p | 0 <= p < NUM_NODES
      ensures a[p] == b[p]
    {
      assert forall q | 0 <= q < NUM_NODES :: a[p][q] == b[p][q];
    }
  }

  lemma {:induction false} ToOk(sent: seq<Envelope>, i: int, q: int)
    requires forall k | 0 <= k < |sent| :: IsBlock(sent[k].msg.block) && sent[k].msg.src == i + 1
    ensures ChannelOk(To(sent, q), i)
  {
    if sent != [] {
      ToOk(sent[1..], i, q);
    }
  }

  /** Everything node index `i` sends is about a real block and names `i` as sender, so
      every channel stays well-addressed. */
  lemma PostKeepsChannelsOk(chans: seq<seq<seq<Message>>>, i: int, sent: seq<Envelope>)
    requires Shape(chans) && IsChannel(i)
    requires forall k | 0 <= k < |sent| :: IsBlock(sent[k].msg.block) && sent[k].msg.src == i + 1
    requires forall p, q | 0 <= p < NUM_NODES && 0 <= q < NUM_NODES :: ChannelOk(chans[p][q], p)
    ensures forall p, q | 0 <= p < NUM_NODES && 0 <= q < NUM_NODES :: ChannelOk(Post(chans, i, sent)[p][q], p)
  {
    forall p, q | 0 <= p < NUM_NODES && 0 <= q < NUM_NODES
      ensures ChannelOk(Post(chans, i, sent)[p][q], p)
    {
      if p == i && q != i {
        ToOk(sent, i, q);
      }
    }
  }

  // ---------------------------------------------------------------------------
  // Steps

  /** Removes the oldest message from channel (`from`, `to`). */
  function Pop(chans: seq<seq<seq<Message>>>, from: int, to: int): (r: seq<seq<seq<Message>>>)
    requires Shape(chans) && IsChannel(from) && IsChannel(to) && chans[from][to] != []
    ensures Shape(r) && r[from][to] == chans[from][to][1..]
    ensures forall p, q | 0 <= p < NUM_NODES && 0 <= q < NUM_NODES && (p != from || q != to) :: r[p][q] == chans[p][q]
  {
    chans[from := chans[from][to := chans[from][to][1..]]]
  }

  /** Node index `to` handles the oldest message node index `from` sent it; what it sends
      is appended to its own outgoing channels. */
  function Deliver(c: System, from: int, to: int): (r: System)
    requires Inv(c) && IsChannel(from) && IsChannel(to) && c.chans[from][to] != []
    ensures Inv(r) && from != to
    ensures r.nodes == c.nodes[to := Handle(c.nodes[to], to + 1, c.chans[from][to][0]).state]
    ensures r.chans[from][to] == c.chans[from][to][1..]
    ensures forall q | 0 <= q < NUM_NODES && q != to ::
      r.chans[to][q] == c.chans[to][q] + To(Handle(c.nodes[to], to + 1, c.chans[from][to][0]).sent, q)
    ensures forall p, q | 0 <= p < NUM_NODES && 0 <= q < NUM_NODES && (p != to || q == to) && (p != from || q != to) ::
      r.chans[p][q] == c.chans[p][q]
  {
    var m := c.chans[from][to][0];
    var chans := Pop(c.chans, from, to);
    assert ChannelOk(c.chans[from][to], from);
    assert m.src == from + 1;
    HandleKeepsOwnersInRange(c.nodes[to], to + 1, m);
    var step := Handle(c.nodes[to], to + 1, m);
    PostKeepsChannelsOk(chans, to, step.sent);
    System(c.nodes[to := step.state], Post(chans, to, step.sent))
  }

  /** Node index `w` runs `writeBlock(b, v)`. */
  function LocalWrite(c: System, w: int, b: int, v: int): (r: System)
    requires Inv(c) && IsChannel(w) && IsBlock(b)
    ensures Inv(r)
    ensures r.nodes == c.nodes[w := Write(c.nodes[w], w + 1, b, v).state]
    ensures forall q | 0 <= q < NUM_NODES && q != w :: r.chans[w][q] == c.chans[w][q] + To(Write(c.nodes[w], w + 1, b, v).sent, q)
    ensures forall p, q | 0 <= p < NUM_NODES && 0 <= q < NUM_NODES && (p != w || q == w) :: r.chans[p][q] == c.chans[p][q]
  {
    var step := Write(c.nodes[w], w + 1, b, v);
    WriteKeepsOwnersInRange(c.nodes[w], w + 1, b, v);
    PostKeepsChannelsOk(c.chans, w, step.sent);
    System(c.nodes[w := step.state], Post(c.chans, w, step.sent))
  }

  /** Node index `x` runs `readBlock(b)` up to issuing its fetch request, if any. */
  function LocalRead(c: System, x: int, b: int): (r: System)
    requires Inv(c) && IsChannel(x) && IsBlock(b)
    ensures Inv(r) && r.nodes == c.nodes
    ensures forall q | 0 <= q < NUM_NODES && q != x :: r.chans[x][q] == c.chans[x][q] + To(Read(c.nodes[x], x + 1, b).sent, q)
    ensures forall p, q | 0 <= p < NUM_NODES && 0 <= q < NUM_NODES && (p != x || q == x) :: r.chans[p][q] == c.chans[p][q]
  {
    var step := Read(c.nodes[x], x + 1, b);
    PostKeepsChannelsOk(c.chans, x, step.sent);
    System(c.nodes, Post(c.chans, x, step.sent))
  }

  /** Node index `to` handles everything node index `from` has sent it. */
  function Drain(c: System, from: int, to: int): (r: System)
    requires Inv(c) && IsChannel(from) && IsChannel(to)
    ensures Inv(r) && r.chans[from][to] == []
    decreases |c.chans[from][to]|
  {
    if c.chans[from][to] == [] then c else Drain(Deliver(c, from, to), from, to)
  }

  /** Every peer from index `j` up handles everything node index `w` has sent it. */
  function DrainFrom(c: System, w: int, j: nat): (r: System)
    requires Inv(c) && IsChannel(w)
    ensures Inv(r)
    decreases NUM_NODES - j
  {
    if j >= NUM_NODES then c else DrainFrom(Drain(c, w, j), w, j + 1)
  }

  // ---------------------------------------------------------------------------
  // Single-writer convergence

  /** A peer's tables after it handled a write's INVALIDATE and WRITE_CLAIM. */
  function Overwritten(s: NodeState, b: int, w: int): NodeState
    requires WellFormed(s) && IsBlock(b) && IsChannel(w)
  {
    OnWriteClaim(OnInvalidate(s, b), b, w + 1)
  }

  /** A channel holding exactly a write's INVALIDATE then WRITE_CLAIM drains into the
      receiver overwriting its view, with nothing sent. */
  lemma DrainWritePair(c: System, w: int, j: int, b: int)
    requires Inv(c) && IsChannel(w) && IsChannel(j) && w != j && IsBlock(b)
    requires c.chans[w][j] == [Message(Invalidate, b, 0, w + 1), Message(WriteClaim, b, 0, w + 1)]
    ensures Drain(c, w, j).nodes[j] == Overwritten(c.nodes[j], b, w)
    ensures forall k | 0 <= k < NUM_NODES && k != j :: Drain(c, w, j).nodes[k] == c.nodes[k]
    ensures forall p, q | 0 <= p < NUM_NODES && 0 <= q < NUM_NODES && (p != w || q != j) ::
      Drain(c, w, j).chans[p][q] == c.chans[p][q]
  {
    var claim := Message(WriteClaim, b, 0, w + 1);
    assert forall q :: To([], q) == [];
    var c1 := Deliver(c, w, j);
    assert c1.nodes == c.nodes[j := OnInvalidate(c.nodes[j], b)];
    assert c1.chans[w][j] == [claim];
    var c2 := Deliver(c1, w, j);
    assert c2.nodes == c.nodes[j := Overwritten(c.nodes[j], b, w)];
    assert c2.chans[w][j] == [];
    assert Drain(c, w, j) == Drain(c1, w, j) == Drain(c2, w, j) == c2;
  }

  /** `r` is `c` after peer `j` handled what writer `w` sent it: a write's pair,
      unless `j` is the writer itself. */
  predicate DrainedOne(c: System, r: System, w: int, j: int, b: int)
    requires Inv(c) && Inv(r) && IsChannel(w) && IsChannel(j) && IsBlock(b)
  {
    r.nodes[j] == (if j == w then c.nodes[j] else Overwritten(c.nodes[j], b, w)) &&
    (forall k | 0 <= k < NUM_NODES && k != j :: r.nodes[k] == c.nodes[k]) &&
    r.chans[w][j] == [] &&
    (forall p, q | 0 <= p < NUM_NODES && 0 <= q < NUM_NODES && (p != w || q != j) :: r.chans[p][q] == c.chans[p][q])
  }

  /** `r` is `c` after every peer from index `j` up handled a write's pair from `w`. */
  predicate DrainedFrom(c: System, r: System, w: int, j: nat, b: int)
    requires Inv(c) && Inv(r) && IsChannel(w) && IsBlock(b)
  {
    (forall k | j <= k < NUM_NODES && k != w :: r.nodes[k] == Overwritten(c.nodes[k], b, w)) &&
    (forall k | 0 <= k < NUM_NODES && (k < j || k == w) :: r.nodes[k] == c.nodes[k]) &&
    (forall q | 0 <= q < NUM_NODES :: r.chans[w][q] == []) &&
    (forall p, q | 0 <= p < NUM_NODES && 0 <= q < NUM_NODES && p != w :: r.chans[p][q] == c.chans[p][q])
  }

  lemma DrainedCompose(c: System, c1: System, r: System, w: int, j: int, b: int)
    requires Inv(c) && Inv(c1) && Inv(r) && IsChannel(w) && IsChannel(j) && IsBlock(b)
    requires forall k | 0 <= k < j :: c.chans[w][k] == []
    requires DrainedOne(c, c1, w, j, b) && DrainedFrom(c1, r, w, j + 1, b)
    ensures DrainedFrom(c, r, w, j, b)
  {
    forall k | j <= k < NUM_NODES && k != w
      ensures r.nodes[k] == Overwritten(c.nodes[k], b, w)
    {
      if k != j {
        assert c1.nodes[k] == c.nodes[k];
      }
    }
    forall k | 0 <= k < NUM_NODES && (k < j || k == w)
      ensures r.nodes[k] == c.nodes[k]
    {
      assert c1.nodes[k] == c.nodes[k];
    }
  }

  lemma DrainOnePair(c: System, w: int, j: int, b: int)
    requires Inv(c) && IsChannel(w) && IsChannel(j) && IsBlock(b)
    requires j != w ==> c.chans[w][j] == [Message(Invalidate, b, 0, w + 1), Message(WriteClaim, b, 0, w + 1)]
    ensures DrainedOne(c, Drain(c, w, j), w, j, b)
  {
    if j == w {
      assert Drain(c, w, j) == c;
    } else {
      DrainWritePair(c, w, j, b);
    }
  }

  /** Draining a write's pairs from peer `j` up: each such peer's view is overwritten, the
      writer's channels end empty, and nothing else changes. */
  lemma {:induction false} DrainWritePairs(c: System, w: int, j: nat, b: int)
    requires Inv(c) && IsChannel(w) && IsBlock(b) && j <= NUM_NODES
    requires forall k | j <= k < NUM_NODES && k != w ::
      c.chans[w][k] == [Message(Invalidate, b, 0, w + 1), Message(WriteClaim, b, 0, w + 1)]
    requires forall k | 0 <= k < j :: c.chans[w][k] == []
    ensures DrainedFrom(c, DrainFrom(c, w, j), w, j, b)
    decreases NUM_NODES - j
  {
    if j < NUM_NODES {
      var c1 := Drain(c, w, j);
      DrainOnePair(c, w, j, b);
      DrainWritePairs(c1, w, j + 1, b);
      assert DrainFrom(c, w, j) == DrainFrom(c1, w, j + 1);
      DrainedCompose(c, c1, DrainFrom(c1, w, j + 1), w, j, b);
    }
  }

  /** `writeBlock(b, v)` at node index `w` from a quiet system, followed by every peer
      handling what it sent: every node then names `w + 1` as owner, every peer's copy is
      invalid with its old data and its sharers are just `w`, the writer holds `v`, and no
      other block changed anywhere. */
  function WriteRound(c: System, w: int, b: int, v: int): (r: System)
    requires Inv(c) && Quiet(c) && IsChannel(w) && IsBlock(b)
    ensures Inv(r) && Quiet(r)
    ensures forall k | 0 <= k < NUM_NODES :: r.nodes[k].directory[b].owner == w + 1
    ensures r.nodes[w].cache[b] == LocalBlock(true, v)
    ensures forall k | 0 <= k < NUM_NODES && k != w ::
      !r.nodes[k].cache[b].valid && r.nodes[k].cache[b].data == c.nodes[k].cache[b].data &&
      r.nodes[k].directory[b].sharers == {w}
    ensures forall k | 0 <= k < NUM_NODES :: SameExcept(c.nodes[k], r.nodes[k], b)
  {
    WriteSettles(c, w, b, v);
    DrainFrom(LocalWrite(c, w, b, v), w, 0)
  }

  /** After the write and the peers' handling, the writer holds the write's own result,
      every peer holds its overwritten view, and nothing is in flight. */
  lemma WriteSettles(c: System, w: int, b: int, v: int)
    requires Inv(c) && Quiet(c) && IsChannel(w) && IsBlock(b)
    ensures var r := DrainFrom(LocalWrite(c, w, b, v), w, 0);
      Quiet(r) && r.nodes[w] == Write(c.nodes[w], w + 1, b, v).state &&
      forall k | 0 <= k < NUM_NODES && k != w :: r.nodes[k] == Overwritten(c.nodes[k], b, w)
  {
    var c1 := LocalWrite(c, w, b, v);
    forall k | 0 <= k < NUM_NODES && k != w
      ensures c1.chans[w][k] == [Message(Invalidate, b, 0, w + 1), Message(WriteClaim, b, 0, w + 1)]
    {
      WriteSendsPair(c.nodes[w], w + 1, b, v, k);
    }
    DrainWritePairs(c1, w, 0, b);
    var r := DrainFrom(c1, w, 0);
    assert DrainedFrom(c1, r, w, 0, b);
    forall p, q | 0 <= p < NUM_NODES && 0 <= q < NUM_NODES
      ensures r.chans[p][q] == []
    {
      if p != w {
        assert r.chans[p][q] == c1.chans[p][q] == c.chans[p][q];
      }
    }
    forall k | 0 <= k < NUM_NODES && k != w
      ensures r.nodes[k] == Overwritten(c.nodes[k], b, w)
    {
      assert c1.nodes[k] == c.nodes[k];
    }
  }

  // ---------------------------------------------------------------------------
  // Fetch correctness

  /** From a quiet system, node index `x` reads block `b` whose line is invalid and whose
      believed owner is another node; the owner handles the request and `x` handles the
      reply. `x` ends holding a valid copy of the owner's data, whatever the state of the
      owner's line, and nothing else changes. */
  function FetchRound(c: System, x: int, b: int): (r: System)
    requires Inv(c) && Quiet(c) && IsChannel(x) && IsBlock(b)
    requires !c.nodes[x].cache[b].valid && c.nodes[x].directory[b].owner != x + 1
    ensures Inv(r) && Quiet(r)
    ensures r.nodes[x].cache[b] == LocalBlock(true, c.nodes[c.nodes[x].directory[b].owner - 1].cache[b].data)
    ensures r.nodes[x].directory == c.nodes[x].directory && SameExcept(c.nodes[x], r.nodes[x], b)
    ensures forall k | 0 <= k < NUM_NODES && k != x :: r.nodes[k] == c.nodes[k]
  {
    var o := c.nodes[x].directory[b].owner - 1;
    var c1 := LocalRead(c, x, b);
    SentRequest(c, x, b);
    var c2 := Deliver(c1, x, o);
    AnswerRequest(c1, x, o, b);
    var c3 := Deliver(c2, o, x);
    TakeReply(c2, o, x, b);
    c3
  }

  /** The read puts one FETCH_REQ on the channel to the believed owner, and nothing else
      is in flight. */
  lemma SentRequest(c: System, x: int, b: int)
    requires Inv(c) && Quiet(c) && IsChannel(x) && IsBlock(b)
    requires !c.nodes[x].cache[b].valid && c.nodes[x].directory[b].owner != x + 1
    ensures var o := c.nodes[x].directory[b].owner - 1;
      LocalRead(c, x, b).chans[x][o] == [Message(FetchReq, b, 0, x + 1)] &&
      forall p, q | 0 <= p < NUM_NODES && 0 <= q < NUM_NODES && (p != x || q != o) :: LocalRead(c, x, b).chans[p][q] == []
  {
    var o := c.nodes[x].directory[b].owner - 1;
    var e := Envelope(o, Message(FetchReq, b, 0, x + 1));
    assert Read(c.nodes[x], x + 1, b).sent == [e];
    forall q | 0 <= q < NUM_NODES
      ensures To([e], q) == if q == o then [e.msg] else []
    {
      ToSingle(e, q);
    }
  }

  /** The owner answers a lone FETCH_REQ with its current data, changing nothing. */
  lemma AnswerRequest(c: System, x: int, o: int, b: int)
    requires Inv(c) && IsChannel(x) && IsChannel(o) && x != o && IsBlock(b)
    requires c.chans[x][o] == [Message(FetchReq, b, 0, x + 1)]
    requires forall p, q | 0 <= p < NUM_NODES && 0 <= q < NUM_NODES && (p != x || q != o) :: c.chans[p][q] == []
    ensures Deliver(c, x, o).nodes == c.nodes
    ensures Deliver(c, x, o).chans[o][x] == [Message(FetchRes, b, c.nodes[o].cache[b].data, o + 1)]
    ensures forall p, q | 0 <= p < NUM_NODES && 0 <= q < NUM_NODES && (p != o || q != x) :: Deliver(c, x, o).chans[p][q] == []
  {
    var r := Deliver(c, x, o);
    var e := Envelope(x, Message(FetchRes, b, c.nodes[o].cache[b].data, o + 1));
    assert Handle(c.nodes[o], o + 1, c.chans[x][o][0]).sent == [e];
    forall q | 0 <= q < NUM_NODES
      ensures To([e], q) == if q == x then [e.msg] else []
    {
      ToSingle(e, q);
    }
    assert r.nodes == c.nodes;
  }

  /** The reader installs a lone FETCH_RES, after which nothing is in flight. */
  lemma TakeReply(c: System, o: int, x: int, b: int)
    requires Inv(c) && IsChannel(x) && IsChannel(o) && x != o && IsBlock(b)
    requires c.chans[o][x] == [Message(FetchRes, b, c.nodes[o].cache[b].data, o + 1)]
    requires forall p, q | 0 <= p < NUM_NODES && 0 <= q < NUM_NODES && (p != o || q != x) :: c.chans[p][q] == []
    ensures Deliver(c, o, x).nodes == c.nodes[x := OnFetchRes(c.nodes[x], b, c.nodes[o].cache[b].data)]
    ensures Quiet(Deliver(c, o, x))
  {
    assert forall q :: To([], q) == [];
  }

  /** A read by a node that believes itself the owner of a line it holds invalid sends its
      request on its own index: the request is lost and nothing changes, so the read
      never completes. */
  lemma SelfFetchIsLost(c: System, x: int, b: int)
    requires Inv(c) && IsChannel(x) && IsBlock(b)
    requires !c.nodes[x].cache[b].valid && c.nodes[x].directory[b].owner == x + 1
    ensures LocalRead(c, x, b) == c
  {
    var r := LocalRead(c, x, b);
    var e := Envelope(x, Message(FetchReq, b, 0, x + 1));
    assert Read(c.nodes[x], x + 1, b).sent == [e];
    forall q | 0 <= q < NUM_NODES && q != x
      ensures To([e], q) == []
    {
      ToSingle(e, q);
    }
    ChansExt(r.chans, c.chans);
  }

  /** The window in which a read is lost arises without any home node: node index `a`
      writes block `b`, node index `o` then writes it too, and `a` has handled `o`'s
      INVALIDATE but not yet its WRITE_CLAIM. `a` still believes itself the owner of a
      line it holds invalid, so its read is lost. */
  lemma WriteWindowReadIsLost(c: System, a: int, o: int, b: int, v1: int, v2: int)
    requires Inv(c) && Quiet(c) && IsChannel(a) && IsChannel(o) && a != o && IsBlock(b)
    ensures var c2 := LocalWrite(WriteRound(c, a, b, v1), o, b, v2);
      c2.chans[o][a] == [Message(Invalidate, b, 0, o + 1), Message(WriteClaim, b, 0, o + 1)] &&
      var c3 := Deliver(c2, o, a);
      !c3.nodes[a].cache[b].valid && c3.nodes[a].directory[b].owner == a + 1 &&
      c3.chans[o][a] == [Message(WriteClaim, b, 0, o + 1)] &&
      LocalRead(c3, a, b) == c3
  {
    var c1 := WriteRound(c, a, b, v1);
    var c2 := LocalWrite(c1, o, b, v2);
    WriteSendsPair(c1.nodes[o], o + 1, b, v2, a);
    assert c2.chans[o][a] == [Message(Invalidate, b, 0, o + 1), Message(WriteClaim, b, 0, o + 1)];
    var c3 := Deliver(c2, o, a);
    assert c3.nodes[a] == OnInvalidate(c1.nodes[a], b);
    SelfFetchIsLost(c3, a, b);
  }

  /** Even from the home-node start, the home node's first read of a block it has not
      written is lost: its request goes to its own index. */
  lemma HomeReadIsLost(home: int, b: int)
    requires IsNodeId(home) && IsBlock(b)
    ensures LocalRead(Init(home), home - 1, b) == Init(home)
  {
    SelfFetchIsLost(Init(home), home - 1, b);
  }

  /** With the corrected read, a read from a quiet system always completes: at once from
      the node's own copy when it holds it valid or believes itself the owner, and
      otherwise by a fetch round that installs the owner's data. */
  lemma CorrectedReadCompletes(c: System, x: int, b: int)
    requires Inv(c) && Quiet(c) && IsChannel(x) && IsBlock(b)
    ensures ReadServingOwner(c.nodes[x], x + 1, b).outcome.Hit? ==>
      ReadServingOwner(c.nodes[x], x + 1, b).outcome.value == c.nodes[x].cache[b].data
    ensures ReadServingOwner(c.nodes[x], x + 1, b).outcome.Requested? ==>
      !c.nodes[x].cache[b].valid && c.nodes[x].directory[b].owner != x + 1 &&
      Read(FetchRound(c, x, b).nodes[x], x + 1, b) ==
        ReadStep(Hit(c.nodes[c.nodes[x].directory[b].owner - 1].cache[b].data), [])
  {
  }

  /** With the corrected read, the home node's first read completes at once with the
      initial 0. */
  lemma HomeReadServed(home: int, b: int)
    requires IsNodeId(home) && IsBlock(b)
    ensures ReadServingOwner(Init(home).nodes[home - 1], home, b) == ReadStep(Hit(0), [])
  {
  }

  // ---------------------------------------------------------------------------
  // A scenario

  /** The weak-consistency window on the peers' side. With node 1 as home of every block,
      node 2 writes 42 to block 0. Node 3 handles the INVALIDATE, then reads block 0 before
      the WRITE_CLAIM arrives: it asks the old owner, node 1, which answers with 0. Node 3
      installs 0 and then handles the claim. It now names node 2 as owner, yet reads the
      stale 0 as a hit, while node 2 holds 42. */
  lemma StaleFetchOutlivesWrite()
    ensures
      var c1 := LocalWrite(Init(1), 1, 0, 42);
      c1.chans[1][2] != [] &&
      var c2 := Deliver(c1, 1, 2);
      var c3 := LocalRead(c2, 2, 0);
      c3.chans[2][0] != [] &&
      var c4 := Deliver(c3, 2, 0);
      c4.chans[0][2] != [] &&
      var c5 := Deliver(c4, 0, 2);
      c5.chans[1][2] != [] &&
      var c6 := Deliver(c5, 1, 2);
      c6.nodes[1].cache[0] == LocalBlock(true, 42) &&
      c6.nodes[2].directory[0].owner == 2 &&
      Read(c6.nodes[2], 3, 0) == ReadStep(Hit(0), [])
  {
    StaleInvalidateFirst();
    var c2 := Deliver(LocalWrite(Init(1), 1, 0, 42), 1, 2);
    StaleFetchFromOldOwner(c2);
    var c5 := Deliver(Deliver(LocalRead(c2, 2, 0), 2, 0), 0, 2);
    StaleClaimLast(c5);
  }

  /** Node 2 writes 42 to block 0 from the home-node start, and node 3 handles only the
      INVALIDATE: node 3's line is invalid, it still names node 1, and the claim waits. */
  lemma StaleInvalidateFirst()
    ensures
      var c1 := LocalWrite(Init(1), 1, 0, 42);
      c1.chans[1][2] == [Message(Invalidate, 0, 0, 2), Message(WriteClaim, 0, 0, 2)] &&
      var c2 := Deliver(c1, 1, 2);
      c2.chans[1][2] == [Message(WriteClaim, 0, 0, 2)] && c2.chans[2][0] == [] && c2.chans[0][2] == [] &&
      !c2.nodes[2].cache[0].valid && c2.nodes[2].directory[0].owner == 1 &&
      c2.nodes[0].cache[0] == LocalBlock(false, 0) && c2.nodes[1].cache[0] == LocalBlock(true, 42)
  {
    var c1 := LocalWrite(Init(1), 1, 0, 42);
    WriteSendsPair(Init(1).nodes[1], 2, 0, 42, 2);
  }

  /** Node 3, invalid and naming node 1, fetches block 0 from node 1 while node 2's claim
      waits on its queue: it installs node 1's data, and node 2 is untouched. */
  lemma StaleFetchFromOldOwner(c: System)
    requires Inv(c) && c.chans[2][0] == [] && c.chans[0][2] == []
    requires !c.nodes[2].cache[0].valid && c.nodes[2].directory[0].owner == 1
    ensures
      var c3 := LocalRead(c, 2, 0);
      c3.chans[2][0] == [Message(FetchReq, 0, 0, 3)] &&
      var c4 := Deliver(c3, 2, 0);
      c4.chans[0][2] == [Message(FetchRes, 0, c.nodes[0].cache[0].data, 1)] &&
      var c5 := Deliver(c4, 0, 2);
      c5.nodes[2].cache[0] == LocalBlock(true, c.nodes[0].cache[0].data) &&
      c5.nodes[2].directory[0] == c.nodes[2].directory[0] &&
      c5.nodes[1] == c.nodes[1] && c5.chans[1][2] == c.chans[1][2]
  {
    var req := Envelope(0, Message(FetchReq, 0, 0, 3));
    assert Read(c.nodes[2], 3, 0).sent == [req];
    ToSingle(req, 0);
    var c3 := LocalRead(c, 2, 0);
    var res := Envelope(2, Message(FetchRes, 0, c.nodes[0].cache[0].data, 1));
    assert Handle(c3.nodes[0], 1, req.msg).sent == [res];
    ToSingle(res, 2);
  }

  /** Node 3 handles node 2's claim last: it names node 2 as owner and keeps its line. */
  lemma StaleClaimLast(c: System)
    requires Inv(c) && c.chans[1][2] == [Message(WriteClaim, 0, 0, 2)]
    ensures
      var c6 := Deliver(c, 1, 2);
      c6.nodes[1] == c.nodes[1] && c6.nodes[2].cache[0] == c.nodes[2].cache[0] &&
      c6.nodes[2].directory[0].owner == 2
  {
  }

  /** With node 1 as home of every block: node 2 reads block 0 before any write and gets
      node 1's initial 0; node 1 then writes 42 to block 0, which invalidates node 2's
      copy and makes node 1 the owner at every node; node 2's next read fetches 42 from
      node 1, after which node 2 reads 42 from its own cache. */
  lemma ReadSeesLatestWrite()
    ensures
      var c1 := FetchRound(Init(1), 1, 0);
      c1.nodes[1].cache[0] == LocalBlock(true, 0) &&
      var c2 := WriteRound(c1, 0, 0, 42);
      !c2.nodes[1].cache[0].valid && c2.nodes[1].directory[0].owner == 1 &&
      var c3 := FetchRound(c2, 1, 0);
      Read(c3.nodes[1], 2, 0) == ReadStep(Hit(42), [])
  {
  }
}
