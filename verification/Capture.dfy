/** The capture socket: reading the next packet from ring memory that the kernel writes at the same time. */
module Capture {
  import opened Common
  import opened Ring

  /** What happens during one `poll` call: it fails, or it returns after the kernel has acted. */
  datatype Turn = PollFails | PollReturns(actions: seq<KernelAction>)

  /** `Waiting` stands for a call that is still polling when the given turns are used up. */
  datatype Outcome = Got(packet: Packet) | PollError | Waiting

  class AfPacketSocket {
    const ring: array<Block>
    const ifindex: int
    var currentBlock: nat
    var cursor: Option<Cursor>

    // The kernel's side; the consumer never looks at it.
    var kernelAt: nat
    var kernelOpen: seq<Packet>

    /** The state of the protocol, with its history. */
    ghost var world: World

    ghost predicate Valid()
      reads this, ring
    {
      world.blocks == ring[..] && world.current == currentBlock && world.cursor == cursor && world.ifindex == ifindex &&
      world.at == kernelAt && world.filling == kernelOpen && Inv(world)
    }

    /** A freshly mapped ring: every block belongs to the kernel. */
    constructor (blocks: array<Block>, ifindex: int)
      requires blocks.Length > 0 && forall i :: 0 <= i < blocks.Length ==> !UserOwned(blocks[i])
      ensures Valid() && ring == blocks && Initial(world)
    {
      ring := blocks;
      this.ifindex := ifindex;
      currentBlock, cursor := 0, None;
      kernelAt, kernelOpen := 0, [];
      world := World(blocks[..], 0, None, ifindex, 0, [], [], [], []);
      new;
      InitialInv(world);
    }

    /** The environment: the kernel carries out those of `actions` that it may. */
    method KernelActs(actions: seq<KernelAction>, ghost trace: seq<World>, ghost start: World)
      returns (ghost trace': seq<World>)
      requires Valid() && Leads(trace, start, world)
      modifies ring, `kernelAt, `kernelOpen, `world
      ensures Valid() && Leads(trace', start, world)
      ensures world.delivered == old(world.delivered) && old(world.produced) <= world.produced &&
              old(world.held) <= world.held
      ensures old(Undelivered(world)) <= Undelivered(world)
    {
      hide Undelivered;
      trace' := trace;
      for i := 0 to |actions|
        invariant Valid() && Leads(trace', start, world)
        invariant world.delivered == old(world.delivered) && old(world.produced) <= world.produced &&
                  old(world.held) <= world.held
        invariant old(Undelivered(world)) <= Undelivered(world)
      {
        trace' := KernelActsOnce(actions[i], trace', start);
      }
    }

    method KernelActsOnce(a: KernelAction, ghost trace: seq<World>, ghost start: World)
      returns (ghost trace': seq<World>)
      requires Valid() && Leads(trace, start, world)
      modifies ring, `kernelAt, `kernelOpen, `world
      ensures Valid() && Leads(trace', start, world)
      ensures world == if Enabled(old(world), a) then KernelStep(old(world), a) else old(world)
      ensures old(Undelivered(world)) <= Undelivered(world)
    {
      hide Queue;
      trace' := trace;
      if Allowed(ring[kernelAt], kernelOpen, ifindex, a) {
        ghost var next := KernelStep(world, a);
        ring[kernelAt] := a.block;
        match a {
          case Fill(p, b) =>
            FillStep(world, p, b);
            kernelOpen := kernelOpen + [p];
          case Retire(b) =>
            RetireStep(world, b);
            kernelAt := (kernelAt + 1) % ring.Length;
            kernelOpen := [];
        }
        assert Step(world, next);
        LeadsOn(trace, start, world, next);
        world := next;
        trace' := trace + [next];
      }
    }

    /** What the kernel does before the next step of the consumer; after `between` is used up, nothing. */
    method KernelMoves(between: seq<seq<KernelAction>>, moves: nat, ghost trace: seq<World>, ghost start: World)
      returns (moves': nat, ghost trace': seq<World>)
      requires Valid() && Leads(trace, start, world) && moves <= |between|
      modifies ring, `kernelAt, `kernelOpen, `world
      ensures Valid() && Leads(trace', start, world)
      ensures moves <= moves' <= |between| && (moves' == moves ==> moves == |between| && world == old(world))
      ensures world.delivered == old(world.delivered) && old(world.produced) <= world.produced &&
              old(world.held) <= world.held
      ensures old(Undelivered(world)) <= Undelivered(world)
    {
      moves', trace' := moves, trace;
      if moves < |between| {
        trace' := KernelActs(between[moves], trace, start);
        moves' := moves + 1;
      }
    }

    /** Wait until the current block belongs to the user, polling while it does not. */
    method WaitForBlock(turns: seq<Turn>, ghost trace: seq<World>, ghost start: World)
      returns (r: Outcome, used: nat, ghost trace': seq<World>, ready: bool)
      requires Valid() && cursor == None && Leads(trace, start, world)
      modifies ring, `kernelAt, `kernelOpen, `world
      ensures Valid() && Leads(trace', start, world) && used <= |turns|
      ensures world.delivered == old(world.delivered) && old(world.produced) <= world.produced &&
              old(world.held) <= world.held
      ensures ready ==> UserOwned(ring[currentBlock])
      ensures !ready ==> !UserOwned(ring[currentBlock]) && r == if used < |turns| then PollError else Waiting
      ensures used < |turns| && !ready ==> turns[used] == PollFails
      ensures old(|world.held|) > 0 ==> ready && used == 0
      ensures used == 0 ==> world == old(world)
    {
      used, trace', ready, r := 0, trace, true, Waiting;
      FirstHeld(world);
      while !UserOwned(ring[currentBlock])
        invariant Valid() && Leads(trace', start, world) && used <= |turns|
        invariant world.delivered == old(world.delivered) && old(world.produced) <= world.produced &&
                  old(world.held) <= world.held
        invariant used == 0 ==> world == old(world)
        invariant old(|world.held|) > 0 ==> used == 0 && UserOwned(ring[currentBlock])
        decreases |turns| - used
      {
        if used == |turns| {
          ready, r := false, Waiting;
          return;
        }
        match turns[used] {
          case PollFails =>
            ready, r := false, PollError;
            return;
          case PollReturns(actions) =>
            trace' := KernelActs(actions, trace', start);
        }
        used := used + 1;
      }
    }

    /** Copy the frame under the cursor and move the cursor behind it. */
    method DeliverFrame(ghost trace: seq<World>, ghost start: World) returns (packet: Packet, ghost trace': seq<World>)
      requires Valid() && CanDeliver(world) && Leads(trace, start, world)
      modifies `cursor, `world
      ensures Valid() && Leads(trace', start, world)
      ensures world.delivered == old(world.delivered) + [packet] && world.produced == old(world.produced)
      ensures cursor.Some? && UserOwned(ring[currentBlock])
      ensures cursor.value.block == old(cursor.value.block) && cursor.value.seen == old(cursor.value.seen) + 1
      ensures Holds(ring[currentBlock], old(cursor.value.nextOffset), packet, ifindex)
    {
      var c := cursor.value;
      ghost var next := Deliver(world);
      DeliverStep(world);
      CursorIsHead(world);
      assert Step(world, next);
      LeadsOn(trace, start, world, next);
      PacketAtExactly(ring[c.block], c.nextOffset, ifindex);
      var frame := ring[c.block].headers[c.nextOffset];
      var pktStart := c.nextOffset + frame.mac;
      var data := ring[c.block].bytes[pktStart..pktStart + frame.snaplen];
      packet := BuildPacket(data, frame.sec, frame.nsec, ifindex);
      cursor := Some(c.(seen := c.seen + 1, nextOffset := c.nextOffset + frame.nextOffset));
      world, trace' := next, trace + [next];
    }

    /** Give the finished block back to the kernel and move on to the next one. */
    method ReleaseBlock(ghost trace: seq<World>, ghost start: World) returns (ghost trace': seq<World>)
      requires Valid() && CanRelease(world) && Leads(trace, start, world)
      modifies ring, `cursor, `currentBlock, `world
      ensures Valid() && cursor == None && Leads(trace', start, world)
      ensures world == Release(old(world)) && Queue(world) == Queue(old(world)) && |world.held| < |old(world.held)|
      ensures world.delivered == old(world.delivered) && world.produced == old(world.produced)
      ensures Undelivered(world) == old(Undelivered(world))
    {
      var k := cursor.value.block;
      ghost var next := Release(world);
      ReleaseStep(world);
      assert Step(world, next);
      LeadsOn(trace, start, world, next);
      ring[k] := ring[k].(status := TP_STATUS_KERNEL);
      cursor := None;
      currentBlock := (currentBlock + 1) % ring.Length;
      world, trace' := next, trace + [next];
    }

    /** Set the cursor to the first frame of the current block. */
    method AcquireBlock(ghost trace: seq<World>, ghost start: World) returns (ghost trace': seq<World>)
      requires Valid() && cursor == None && UserOwned(ring[currentBlock]) && Leads(trace, start, world)
      modifies `cursor, `world
      ensures Valid() && cursor.Some? && Leads(trace', start, world)
      ensures world == Acquire(old(world)) && Queue(world) == Queue(old(world))
      ensures world.delivered == old(world.delivered) && world.produced == old(world.produced) &&
              world.held == old(world.held)
      ensures Undelivered(world) == old(Undelivered(world))
    {
      ghost var next := Acquire(world);
      AcquireStep(world);
      assert Step(world, next);
      LeadsOn(trace, start, world, next);
      var b := ring[currentBlock];
      cursor := Some(Cursor(currentBlock, b.numPkts, 0, b.firstOffset));
      world, trace' := next, trace + [next];
    }

    /** Wait for the current block and set the cursor to its first frame; the kernel may act in between. */
    method TakeBlock(turns: seq<Turn>, between: seq<seq<KernelAction>>, moves: nat, ghost trace: seq<World>,
                     ghost start: World)
      returns (r: Outcome, used: nat, moves': nat, ready: bool, ghost trace': seq<World>)
      requires Valid() && cursor == None && Leads(trace, start, world) && moves <= |between|
      modifies ring, `cursor, `kernelAt, `kernelOpen, `world
      ensures Valid() && Leads(trace', start, world) && used <= |turns| && moves <= moves' <= |between|
      ensures world.delivered == old(world.delivered) && old(world.produced) <= world.produced
      ensures old(|world.held|) > 0 ==> ready && used == 0 && old(Undelivered(world)) <= Undelivered(world)
      ensures ready ==> cursor.Some? && (moves' == moves && used == 0 ==> |world.held| == old(|world.held|))
      ensures !ready ==> cursor == None && !UserOwned(ring[currentBlock]) && Queue(world) == world.filling
      ensures !ready ==> r == if used < |turns| then PollError else Waiting
      ensures !ready && used < |turns| ==> turns[used] == PollFails
    {
      hide Inv, Queue, Acquire, Leads;
      moves' := moves;
      r, used, trace', ready := WaitForBlock(turns, trace, start);
      Unmoved(world);
      if !ready {
        NothingHeld(world);
        return;
      }
      HeldIfOwned(world);
      moves', trace' := KernelMoves(between, moves, trace', start);
      Unmoved(world);
      FirstHeld(world);
      trace' := AcquireBlock(trace', start);
    }

    /** Read the next packet. It is the oldest one not yet delivered; if a retired block holds one, no
        polling is needed. A failed poll loses and repeats nothing: the next call takes up where this one stopped.
        The kernel acts during polls, as `turns` says, and between any two accesses to the ring, as `between` says. */
    method NextPacket(turns: seq<Turn>, between: seq<seq<KernelAction>>)
      returns (r: Outcome, used: nat, ghost trace: seq<World>)
      requires Valid()
      modifies this, ring
      ensures Valid() && used <= |turns|
      ensures Leads(trace, old(world), world)
      ensures world.delivered == old(world.delivered) + if r.Got? then [r.packet] else []
      ensures old(world.produced) <= world.produced
      ensures r.Got? ==> UserOwned(ring[currentBlock])
      ensures r.Got? ==> exists offset :: Holds(ring[currentBlock], offset, r.packet, ifindex)
      ensures old(|Queue(world)| > |world.filling|) ==> r.Got? && used == 0
      ensures r == PollError ==> used < |turns| && turns[used] == PollFails
      ensures r == Waiting ==> used == |turns|
      ensures !r.Got? ==> cursor == None && !UserOwned(ring[currentBlock]) && Queue(world) == world.filling
    {
      hide Inv, Queue, Deliver, Acquire, Release, Leads;
      used := 0;
      var moves := 0;
      trace := StartOf(world);
      ghost var start := world;
      while true
        invariant Valid() && Leads(trace, start, world) && used <= |turns| && moves <= |between|
        invariant world.delivered == old(world.delivered) && old(world.produced) <= world.produced
        invariant old(|Queue(world)| > |world.filling|) ==> used == 0 && Undelivered(world) > 0
        decreases |between| - moves, |turns| - used, |world.held|, if cursor.None? then 1 else 0
      {
        moves, trace := KernelMoves(between, moves, trace, start);
        if cursor.Some? {
          if cursor.value.seen < cursor.value.numPkts {
            var packet;
            packet, trace := DeliverFrame(trace, start);
            return Got(packet), used, trace;
          }
          trace := ReleaseBlock(trace, start);
          moves, trace := KernelMoves(between, moves, trace, start);
        }

        SomethingHeld(world);
        var turnsUsed, ready;
        r, turnsUsed, moves, ready, trace := TakeBlock(turns[used..], between, moves, trace, start);
        used := used + turnsUsed;
        if !ready {
          return;
        }
      }
    }
  }

  lemma StartOf(w: World) returns (trace: seq<World>)
    ensures Leads(trace, w, w)
  {
    trace := [w];
  }

  /** The packets of user-owned blocks that were not delivered. */
  function Undelivered(w: World): int { |Queue(w)| - |w.filling| }

  /** Only deliveries and fills show in the history. */
  lemma Unmoved(w: World)
    requires Inv(w)
    ensures w.current < |w.blocks|
    ensures CanRelease(w) ==>
              Release(w).delivered == w.delivered && Release(w).produced == w.produced &&
              Release(w).filling == w.filling
    ensures CanAcquire(w) ==> Acquire(w).delivered == w.delivered && Acquire(w).produced == w.produced &&
                              Acquire(w).filling == w.filling && Acquire(w).held == w.held
  {
  }

  lemma SomethingHeld(w: World)
    ensures Undelivered(w) > 0 ==> |w.held| > 0
  {
  }

  lemma FirstHeld(w: World)
    requires Inv(w)
    ensures |w.held| >= 1 ==> UserOwned(w.blocks[w.current])
  {
    if |w.held| >= 1 { assert HeldBlock(w, 0); }
  }

  lemma HeldIfOwned(w: World)
    requires Inv(w) && UserOwned(w.blocks[w.current])
    ensures |w.held| >= 1
  {
    assert Slot(w.current, 0, |w.blocks|) == w.current;
  }

  lemma NothingHeld(w: World)
    requires Inv(w) && w.cursor == None && !UserOwned(w.blocks[w.current])
    ensures |w.held| == 0 && Queue(w) == w.filling
  {
    FirstHeld(w);
  }
}
