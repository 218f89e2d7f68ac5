/** The node object: the cache and directory vectors become two arrays updated in
    place, and `send` becomes appending to an outbox. Each method is one atomic step
    and is proved to perform exactly the transition Coherence specifies for it. */
module Node {
  import opened Protocol
  import opened Coherence

  class DSMNode {
    /** This node's NodeID. */
    const id: int
    /** One line per block. */
    const cache: array<LocalBlock>
    /** This node's view of ownership, one entry per block. */
    const directory: array<DirectoryEntry>
    /** Every send so far, oldest first. */
    var outbox: seq<Envelope>

    ghost predicate Valid()
      reads this
    {
      IsNodeId(id) && cache.Length == NUM_BLOCKS && directory.Length == NUM_BLOCKS
    }

    /** The tables as a value. */
    ghost function State(): (s: NodeState)
      reads this, cache, directory
      requires Valid()
      ensures WellFormed(s)
    {
      NodeState(cache[..], directory[..])
    }

    /** The constructor as written: invalid lines with data 0, owner 0 everywhere. */
    constructor (id: int)
      requires IsNodeId(id)
      ensures Valid() && this.id == id && fresh(cache) && fresh(directory)
      ensures State() == Initial() && outbox == []
    {
      this.id := id;
      cache := new LocalBlock[NUM_BLOCKS](_ => LocalBlock(false, 0));
      directory := new DirectoryEntry[NUM_BLOCKS](_ => DirectoryEntry(0, {}));
      outbox := [];
    }

    /** A constructor that gives every block the home node `home` as its first owner. */
    constructor WithHome(id: int, home: int)
      requires IsNodeId(id) && IsNodeId(home)
      ensures Valid() && this.id == id && fresh(cache) && fresh(directory)
      ensures State() == InitialWithHome(home) && OwnersInRange(State()) && outbox == []
    {
      this.id := id;
      cache := new LocalBlock[NUM_BLOCKS](_ => LocalBlock(false, 0));
      directory := new DirectoryEntry[NUM_BLOCKS](_ => DirectoryEntry(home, {}));
      outbox := [];
    }

    /** `broadcast(msg)`: one send per peer index other than our own, in increasing order. */
    method Broadcast(m: Message)
      requires Valid()
      modifies this`outbox
      ensures Valid()
      ensures outbox == old(outbox) + Coherence.Broadcast(id, m)
    {
      var i := 0;
      while i < NUM_NODES
        invariant 0 <= i <= NUM_NODES
        invariant outbox == old(outbox) + BroadcastUpTo(id, m, i)
      {
        if i + 1 != id {
          outbox := outbox + [Envelope(i, m)];
        }
        i := i + 1;
      }
    }

    /** `handle(msg)`, run under the node's mutex. */
    method Handle(m: Message)
      requires Valid() && Acceptable(m)
      modifies cache, directory, this`outbox
      ensures Valid()
      ensures State() == Coherence.Handle(old(State()), id, m).state
      ensures outbox == old(outbox) + Coherence.Handle(old(State()), id, m).sent
    {
      match m.mtype
      case Invalidate =>
        cache[m.block] := cache[m.block].(valid := false);
      case FetchReq =>
        var res := Message(FetchRes, m.block, cache[m.block].data, id);
        outbox := outbox + [Envelope(m.src - 1, res)];
      case FetchRes =>
        cache[m.block] := cache[m.block].(data := m.value);
        cache[m.block] := cache[m.block].(valid := true);
      case WriteClaim =>
        directory[m.block] := directory[m.block].(owner := m.src);
        directory[m.block] := directory[m.block].(sharers := {});
        directory[m.block] := directory[m.block].(sharers := directory[m.block].sharers + {m.src - 1});
    }

    /** `readBlock(b)` up to the point where it either has the value or has sent its
        fetch request; the tables do not change. */
    method ReadBlock(b: int) returns (r: ReadOutcome)
      requires Valid() && IsBlock(b)
      modifies this`outbox
      ensures Valid()
      ensures r == Read(State(), id, b).outcome
      ensures outbox == old(outbox) + Read(State(), id, b).sent
    {
      if !cache[b].valid {
        var req := Message(FetchReq, b, 0, id);
        outbox := outbox + [Envelope(directory[b].owner - 1, req)];
        r := Requested;
      } else {
        r := Hit(cache[b].data);
      }
    }

    /** `writeBlock(b, v)`: invalidate everywhere, take ownership, announce it, install. */
    method WriteBlock(b: int, v: int)
      requires Valid() && IsBlock(b)
      modifies cache, directory, this`outbox
      ensures Valid()
      ensures State() == Write(old(State()), id, b, v).state
      ensures outbox == old(outbox) + Write(old(State()), id, b, v).sent
    {
      var inv := Message(Invalidate, b, 0, id);
      Broadcast(inv);
      directory[b] := directory[b].(owner := id);
      var claim := Message(WriteClaim, b, 0, id);
      Broadcast(claim);
      cache[b] := cache[b].(data := v);
      cache[b] := cache[b].(valid := true);
    }

    /** The body of one command thread of `run`. */
    method Execute(c: Command)
      requires Valid() && Runnable(c)
      modifies cache, directory, this`outbox
      ensures Valid()
      ensures State() == Dispatch(old(State()), id, c).state
      ensures outbox == old(outbox) + Dispatch(old(State()), id, c).sent
    {
      if c.op == 'R' {
        var _ := ReadBlock(c.args[0]);
      } else {
        WriteBlock(c.args[0], c.args[1]);
      }
    }
  }
}
