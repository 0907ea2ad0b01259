/** The TPACKET_V3 ring as a protocol: the kernel fills and retires blocks in order, the consumer walks
    the frames of each retired block and gives it back. */
module Ring {
  import opened Common
  import opened Bits

  const TP_STATUS_KERNEL: u32 := 0
  const TP_STATUS_USER: u32 := 1

  /** The fields of a frame header the consumer reads. */
  datatype FrameHeader = FrameHeader(nextOffset: u32, snaplen: u32, mac: u16, sec: u32, nsec: u32)

  /** A block of ring memory: its descriptor, the frame headers by offset, and its bytes. */
  datatype Block = Block(status: u32, numPkts: u32, firstOffset: u32, headers: map<nat, FrameHeader>, bytes: seq<u8>)

  datatype Packet = Packet(sec: nat, usec: nat, ifindex: int, capLen: nat, origLen: nat, data: seq<u8>)

  function BuildPacket(data: seq<u8>, sec: nat, nsec: nat, ifindex: int): Packet {
    Packet(sec, nsec / 1000, ifindex, |data|, |data|, data)
  }

  predicate UserOwned(b: Block) {
    And(b.status, TP_STATUS_USER) != 0
  }

  /** There is a whole frame at `offset`. */
  predicate FrameAt(b: Block, offset: nat) {
    offset in b.headers && offset + b.headers[offset].mac + b.headers[offset].snaplen <= |b.bytes|
  }

  function PacketAt(b: Block, offset: nat, ifindex: int): Packet
    requires FrameAt(b, offset)
  {
    var h, start := b.headers[offset], offset + b.headers[offset].mac;
    BuildPacket(b.bytes[start..start + h.snaplen], h.sec, h.nsec, ifindex)
  }

  /** What it means that the frame at `offset` holds a packet: its bytes, its time and its lengths. */
  predicate Holds(b: Block, offset: nat, p: Packet, ifindex: int) {
    FrameAt(b, offset) &&
    var h := b.headers[offset];
    |p.data| == h.snaplen && (forall i :: 0 <= i < |p.data| ==> p.data[i] == b.bytes[offset + h.mac + i]) &&
    p.sec == h.sec && p.usec * 1000 <= h.nsec < (p.usec + 1) * 1000 && p.ifindex == ifindex &&
    p.capLen == |p.data| && p.origLen == |p.data|
  }

  /** The packet copied out of a frame, byte by byte; nothing else is in it. */
  lemma PacketAtExactly(b: Block, offset: nat, ifindex: int)
    requires FrameAt(b, offset)
    ensures var h, p := b.headers[offset], PacketAt(b, offset, ifindex);
            |p.data| == h.snaplen && (forall i :: 0 <= i < h.snaplen ==> p.data[i] == b.bytes[offset + h.mac + i]) &&
            p.sec == h.sec && p.usec * 1000 <= h.nsec < (p.usec + 1) * 1000 && p.ifindex == ifindex &&
            p.capLen == h.snaplen && p.origLen == h.snaplen
    ensures forall p :: Holds(b, offset, p, ifindex) <==> p == PacketAt(b, offset, ifindex)
  {
    var h, q := b.headers[offset], PacketAt(b, offset, ifindex);
    forall p ensures Holds(b, offset, p, ifindex) <==> p == q {
      if Holds(b, offset, p, ifindex) {
        assert p.data == q.data;
      }
    }
  }

  lemma HeldIsPacketAt(b: Block, offset: nat, p: Packet, ifindex: int)
    requires Holds(b, offset, p, ifindex)
    ensures FrameAt(b, offset) && p == PacketAt(b, offset, ifindex)
  {
    PacketAtExactly(b, offset, ifindex);
  }

  /** The lowest bit of the status word says whose block it is, whatever the other bits are. */
  lemma OwnershipBit(b: Block)
    ensures UserOwned(b) <==> b.status % 2 == 1
  {
    AndHalves(b.status, 1);
    assert And(b.status / 2, 0) == 0;
  }

  /** Following the frames of `b` from `offset` on yields exactly `packets`. */
  predicate Chain(b: Block, offset: nat, packets: seq<Packet>, ifindex: int)
    decreases |packets|
  {
    packets == [] ||
    (Holds(b, offset, packets[0], ifindex) &&
     offset + b.headers[offset].nextOffset < 0x1_0000_0000 &&
     Chain(b, offset + b.headers[offset].nextOffset, packets[1..], ifindex))
  }

  datatype Cursor = Cursor(block: nat, numPkts: u32, seen: u32, nextOffset: u32)

  /** The shared memory and the consumer, the kernel's position, and what happened so far: `held` are the
      packets of the user-owned blocks, oldest block first, and `filling` those of the open block. */
  datatype World = World(
    blocks: seq<Block>, current: nat, cursor: Option<Cursor>, ifindex: int,
    at: nat, filling: seq<Packet>, held: seq<seq<Packet>>, produced: seq<Packet>, delivered: seq<Packet>)

  /** The block `j` places behind block `i` in a ring of `n`. */
  function Slot(i: nat, j: nat, n: nat): (k: nat)
    requires i < n && j <= n
    ensures k < n
  {
    if i + j < n then i + j else i + j - n
  }

  lemma NextSlot(i: nat, n: nat)
    requires i < n
    ensures (i + 1) % n == Slot(i, 1, n)
  {
    if i + 1 < n { SmallMod(i + 1, n); } else { assert n % n == 0; }
  }

  function Flatten(s: seq<seq<Packet>>): seq<Packet> {
    if s == [] then [] else s[0] + Flatten(s[1..])
  }

  lemma {:induction false} FlattenAppend(s: seq<seq<Packet>>, t: seq<Packet>)
    ensures Flatten(s + [t]) == Flatten(s) + t
    decreases |s|
  {
    if s == [] {
      assert s + [t] == [t] && [t][1..] == [];
      assert Flatten([t]) == t + Flatten([]);
    } else {
      assert (s + [t])[1..] == s[1..] + [t];
      FlattenAppend(s[1..], t);
    }
  }

  /** The packets in the ring that were not delivered, oldest first: the abstract queue. */
  function Queue(w: World): seq<Packet> {
    var rest := Flatten(w.held);
    var seen := if w.cursor.Some? then w.cursor.value.seen else 0;
    (if seen <= |rest| then rest[seen..] else []) + w.filling
  }

  ghost predicate HeldBlock(w: World, j: nat)
    requires w.current < |w.blocks| && j < |w.held| <= |w.blocks|
  {
    var b := w.blocks[Slot(w.current, j, |w.blocks|)];
    UserOwned(b) && b.numPkts == |w.held[j]| && Chain(b, b.firstOffset, w.held[j], w.ifindex)
  }

  ghost predicate CursorOk(w: World)
    requires w.current < |w.blocks|
  {
    w.cursor.Some? ==>
      var c := w.cursor.value;
      |w.held| >= 1 && c.block == w.current && c.seen <= c.numPkts == |w.held[0]| &&
      Chain(w.blocks[w.current], c.nextOffset, w.held[0][c.seen..], w.ifindex)
  }

  ghost predicate Inv(w: World) {
    var n := |w.blocks|;
    w.current < n && |w.held| <= n && w.at == Slot(w.current, |w.held|, n) &&
    (forall j :: 0 <= j < |w.held| ==> HeldBlock(w, j)) &&
    (forall j :: |w.held| <= j < n ==> !UserOwned(w.blocks[Slot(w.current, j, n)])) &&
    CursorOk(w) &&
    w.produced == w.delivered + Queue(w)
  }

  // ----- steps of the kernel -----

  /** What the kernel can do: put a packet into the open block, or retire it, possibly empty. Each
      rewrites the memory of the open block only. */
  datatype KernelAction = Fill(packet: Packet, block: Block) | Retire(block: Block)

  predicate Allowed(open: Block, filling: seq<Packet>, ifindex: int, a: KernelAction) {
    !UserOwned(open) &&
    match a
    case Fill(_, b) => !UserOwned(b)
    case Retire(b) => UserOwned(b) && b.numPkts == |filling| && Chain(b, b.firstOffset, filling, ifindex)
  }

  predicate Enabled(w: World, a: KernelAction) {
    w.at < |w.blocks| && Allowed(w.blocks[w.at], w.filling, w.ifindex, a)
  }

  function KernelStep(w: World, a: KernelAction): World
    requires Enabled(w, a)
  {
    match a
    case Fill(p, b) => w.(blocks := w.blocks[w.at := b], filling := w.filling + [p], produced := w.produced + [p])
    case Retire(b) =>
      w.(blocks := w.blocks[w.at := b], at := (w.at + 1) % |w.blocks|, held := w.held + [w.filling], filling := [])
  }

  // ----- steps of the consumer -----

  predicate CanDeliver(w: World) { w.cursor.Some? && w.cursor.value.seen < w.cursor.value.numPkts }

  ghost function Deliver(w: World): World
    requires Inv(w) && CanDeliver(w)
  {
    var c := w.cursor.value;
    var b := w.blocks[c.block];
    w.(cursor := Some(c.(seen := c.seen + 1, nextOffset := c.nextOffset + b.headers[c.nextOffset].nextOffset)),
       delivered := w.delivered + [PacketAt(b, c.nextOffset, w.ifindex)])
  }

  predicate CanRelease(w: World) { w.cursor.Some? && w.cursor.value.seen >= w.cursor.value.numPkts }

  ghost function Release(w: World): World
    requires Inv(w) && CanRelease(w)
  {
    var k := w.cursor.value.block;
    w.(blocks := w.blocks[k := w.blocks[k].(status := TP_STATUS_KERNEL)], cursor := None,
       current := (w.current + 1) % |w.blocks|, held := w.held[1..])
  }

  predicate CanAcquire(w: World)
    requires w.current < |w.blocks|
  {
    w.cursor.None? && UserOwned(w.blocks[w.current])
  }

  ghost function Acquire(w: World): World
    requires w.current < |w.blocks| && CanAcquire(w)
  {
    var b := w.blocks[w.current];
    w.(cursor := Some(Cursor(w.current, b.numPkts, 0, b.firstOffset)))
  }

  // ----- what every step keeps, and what it does to the queue -----

  lemma Frame(w: World, v: World)
    requires Inv(w) && v.current == w.current && |v.blocks| == |w.blocks| && v.ifindex == w.ifindex && v.held == w.held
    requires forall j :: 0 <= j < |w.held| ==>
               v.blocks[Slot(w.current, j, |w.blocks|)] == w.blocks[Slot(w.current, j, |w.blocks|)]
    ensures forall j :: 0 <= j < |v.held| ==> HeldBlock(v, j)
  {
    forall j | 0 <= j < |v.held| ensures HeldBlock(v, j) { assert HeldBlock(w, j); }
  }

  lemma FillStep(w: World, p: Packet, b: Block)
    requires Inv(w) && Enabled(w, Fill(p, b))
    ensures Inv(KernelStep(w, Fill(p, b)))
    ensures Queue(KernelStep(w, Fill(p, b))) == Queue(w) + [p]
  {
    var v := KernelStep(w, Fill(p, b));
    OpenBlock(w);
    Frame(w, v);
    if w.cursor.Some? { FlattenFirst(w.held); }
  }

  /** The open block is behind all user-owned blocks, so there is one only if not all are user-owned. */
  lemma OpenBlock(w: World)
    requires Inv(w) && !UserOwned(w.blocks[w.at])
    ensures |w.held| < |w.blocks|
    ensures forall j :: 0 <= j < |w.blocks| && j != |w.held| ==> Slot(w.current, j, |w.blocks|) != w.at
  {
    if |w.held| >= 1 { assert HeldBlock(w, 0); }
  }

  lemma FlattenFirst(s: seq<seq<Packet>>)
    requires |s| >= 1
    ensures |Flatten(s)| >= |s[0]| && Flatten(s)[..|s[0]|] == s[0] && Flatten(s)[|s[0]|..] == Flatten(s[1..])
  {
  }

  lemma RetireQueue(w: World, b: Block)
    requires Inv(w) && Enabled(w, Retire(b))
    ensures Queue(KernelStep(w, Retire(b))) == Queue(w)
  {
    hide HeldBlock, Chain, UserOwned;
    if w.cursor.Some? { FlattenFirst(w.held); }
    FlattenAppend(w.held, w.filling);
  }

  lemma RetireStep(w: World, b: Block)
    requires Inv(w) && Enabled(w, Retire(b))
    ensures Inv(KernelStep(w, Retire(b)))
    ensures Queue(KernelStep(w, Retire(b))) == Queue(w)
  {
    hide Queue, UserOwned;
    var v, n := KernelStep(w, Retire(b)), |w.blocks|;
    OpenBlock(w);
    NextSlot(w.at, n);
    forall j | 0 <= j < |v.held| ensures HeldBlock(v, j) {
      if j < |w.held| { assert HeldBlock(w, j); }
    }
    RetireQueue(w, b);
  }

  /** The frame under the cursor is the head of the queue. */
  lemma CursorIsHead(w: World)
    requires Inv(w) && CanDeliver(w)
    ensures var c := w.cursor.value; var b := w.blocks[c.block];
            UserOwned(b) && FrameAt(b, c.nextOffset) &&
            Queue(w) == [PacketAt(b, c.nextOffset, w.ifindex)] + Queue(Deliver(w))
  {
    hide Holds, PacketAt, FrameAt, UserOwned;
    var c := w.cursor.value;
    assert HeldBlock(w, 0);
    FlattenFirst(w.held);
    var rest := w.held[0][c.seen..];
    HeldIsPacketAt(w.blocks[c.block], c.nextOffset, rest[0], w.ifindex);
    var all := Flatten(w.held);
    assert all[c.seen] == w.held[0][c.seen] == rest[0];
    assert all[c.seen..] == [rest[0]] + all[c.seen + 1..];
  }

  /** Delivering reads a whole frame of a user-owned block, and takes the oldest packet from the queue. */
  lemma DeliverStep(w: World)
    requires Inv(w) && CanDeliver(w)
    ensures UserOwned(w.blocks[w.cursor.value.block]) &&
            FrameAt(w.blocks[w.cursor.value.block], w.cursor.value.nextOffset)
    ensures Inv(Deliver(w))
    ensures exists p :: Queue(w) == [p] + Queue(Deliver(w)) && Deliver(w).delivered == w.delivered + [p]
  {
    hide Queue;
    var v, c := Deliver(w), w.cursor.value;
    CursorIsHead(w);
    var p := PacketAt(w.blocks[c.block], c.nextOffset, w.ifindex);
    assert w.held[0][c.seen..][1..] == w.held[0][c.seen + 1..];
    Frame(w, v);
    assert w.delivered + ([p] + Queue(v)) == (w.delivered + [p]) + Queue(v);
    assert Queue(w) == [p] + Queue(v) && v.delivered == w.delivered + [p];
  }

  /** A block goes back to the kernel only when all its packets were delivered. */
  lemma ReleaseStep(w: World)
    requires Inv(w) && CanRelease(w)
    ensures w.cursor.value.seen == |w.held[0]|
    ensures var k := w.cursor.value.block;
            Release(w).blocks == w.blocks[k := w.blocks[k].(status := 0)]
    ensures Inv(Release(w)) && Queue(Release(w)) == Queue(w)
  {
    var v, n, c := Release(w), |w.blocks|, w.cursor.value;
    NextSlot(w.current, n);
    FlattenFirst(w.held);
    forall j | 0 <= j < |v.held| ensures HeldBlock(v, j) {
      assert HeldBlock(w, j + 1);
      assert Slot(v.current, j, n) == Slot(w.current, j + 1, n) != w.current;
    }
    KernelOwned(w.blocks[c.block]);
    forall j | |v.held| <= j < n ensures !UserOwned(v.blocks[Slot(v.current, j, n)]) {
      if j < n - 1 { assert Slot(v.current, j, n) == Slot(w.current, j + 1, n); }
    }
    assert Flatten(v.held)[0..] == Flatten(v.held);
  }

  lemma KernelOwned(b: Block)
    ensures !UserOwned(b.(status := TP_STATUS_KERNEL))
  {
  }

  lemma AcquireStep(w: World)
    requires Inv(w) && CanAcquire(w)
    ensures Inv(Acquire(w)) && Queue(Acquire(w)) == Queue(w)
  {
    var v, n := Acquire(w), |w.blocks|;
    assert Slot(w.current, 0, n) == w.current;
    assert HeldBlock(w, 0);
    Frame(w, v);
    assert w.held[0][0..] == w.held[0];
  }

  // ----- runs -----

  /** Any step of either party; a poll that finds nothing, or fails, changes nothing. */
  ghost predicate Step(w: World, v: World) {
    (exists a :: Enabled(w, a) && v == KernelStep(w, a)) ||
    (Inv(w) && CanDeliver(w) && v == Deliver(w)) ||
    (Inv(w) && CanRelease(w) && v == Release(w)) ||
    (Inv(w) && CanAcquire(w) && v == Acquire(w)) ||
    v == w
  }

  /** `trace` leads from `w` to `v` by steps of either party. */
  ghost predicate Leads(trace: seq<World>, w: World, v: World) {
    |trace| > 0 && trace[0] == w && trace[|trace| - 1] == v &&
    forall i :: 0 <= i < |trace| - 1 ==> Step(trace[i], trace[i + 1])
  }

  lemma LeadsOn(trace: seq<World>, w: World, v: World, u: World)
    requires Leads(trace, w, v) && Step(v, u)
    ensures Leads(trace + [u], w, u)
  {
    var t := trace + [u];
    forall i | 0 <= i < |t| - 1 ensures Step(t[i], t[i + 1]) {
      if i < |trace| - 1 { assert Step(trace[i], trace[i + 1]); }
    }
  }

  ghost predicate Initial(w: World) {
    |w.blocks| > 0 && w.current == w.at == 0 && w.cursor == None &&
    (forall i :: 0 <= i < |w.blocks| ==> !UserOwned(w.blocks[i])) &&
    w.held == [] && w.filling == w.produced == w.delivered == []
  }

  ghost predicate IsRun(run: seq<World>) {
    |run| > 0 && Initial(run[0]) && forall i :: 0 <= i < |run| - 1 ==> Step(run[i], run[i + 1])
  }

  /** Each step is a step of a FIFO queue: enqueue a packet produced, dequeue a packet delivered, or nothing. */
  ghost predicate QueueStep(w: World, v: World) {
    (exists p :: Queue(v) == Queue(w) + [p] && v.produced == w.produced + [p] && v.delivered == w.delivered) ||
    (exists p :: Queue(w) == [p] + Queue(v) && v.delivered == w.delivered + [p] && v.produced == w.produced) ||
    (Queue(v) == Queue(w) && v.produced == w.produced && v.delivered == w.delivered)
  }

  lemma StepRefinesQueue(w: World, v: World)
    requires Inv(w) && Step(w, v)
    ensures Inv(v) && QueueStep(w, v)
  {
    hide Inv, Queue;
    if v == w {
    } else if exists a :: Enabled(w, a) && v == KernelStep(w, a) {
      var a :| Enabled(w, a) && v == KernelStep(w, a);
      match a
      case Fill(p, b) => FillStep(w, p, b);
      case Retire(b) => RetireStep(w, b);
    } else if CanDeliver(w) {
      DeliverStep(w);
    } else if CanRelease(w) {
      ReleaseStep(w);
    } else {
      AcquireStep(w);
    }
  }

  lemma InitialInv(w: World)
    requires Initial(w)
    ensures Inv(w)
  {
  }

  /** Over every interleaving, at every moment: what was delivered, followed by what is still in the ring,
      is what was produced, in order, each packet once. */
  lemma {:induction false} ExactlyOnceInOrder(run: seq<World>, i: nat)
    requires IsRun(run) && i < |run|
    ensures Inv(run[i]) && run[i].produced == run[i].delivered + Queue(run[i])
    decreases i
  {
    if i == 0 {
      InitialInv(run[0]);
    } else {
      ExactlyOnceInOrder(run, i - 1);
      assert Step(run[i - 1], run[(i - 1) + 1]);
      StepRefinesQueue(run[i - 1], run[i]);
    }
  }
}
