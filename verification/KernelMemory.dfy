/** The kernel of the ring protocol can do its part: any packets that fit can be written and handed over. */
module KernelMemory {
  import opened Bits
  import opened Ring

  /** Room for the header in front of the bytes of a packet. */
  const HEADER: nat := 48

  /** A packet as the consumer can see it: times and lengths fit into their fields. */
  predicate Writable(p: Packet, ifindex: int) {
    p.sec < 0x1_0000_0000 && p.usec * 1000 < 0x1_0000_0000 && |p.data| < 0x1_0000_0000 &&
    p.capLen == |p.data| && p.origLen == |p.data| && p.ifindex == ifindex
  }

  function BytesOf(packets: seq<Packet>): seq<u8> {
    if packets == [] then [] else seq(HEADER, _ => 0) + packets[0].data + BytesOf(packets[1..])
  }

  /** The headers of `packets` written one behind the other from `at` on. */
  function HeadersOf(packets: seq<Packet>, at: nat, ifindex: int): (h: map<nat, FrameHeader>)
    requires forall i :: 0 <= i < |packets| ==> Writable(packets[i], ifindex)
    requires at + |BytesOf(packets)| < 0x1_0000_0000
    ensures forall k :: k in h ==> k >= at
    decreases |packets|
  {
    if packets == [] then map[]
    else
      var p := packets[0];
      var size := HEADER + |p.data|;
      assert Writable(p, ifindex);
      HeadersOf(packets[1..], at + size, ifindex)[at := FrameHeader(size, |p.data|, HEADER, p.sec, p.usec * 1000)]
  }

  lemma {:induction false} Written(b: Block, packets: seq<Packet>, at: nat, ifindex: int)
    requires forall i :: 0 <= i < |packets| ==> Writable(packets[i], ifindex)
    requires at + |BytesOf(packets)| == |b.bytes| < 0x1_0000_0000 && b.bytes[at..] == BytesOf(packets)
    requires var h := HeadersOf(packets, at, ifindex); forall k :: k in h ==> k in b.headers && b.headers[k] == h[k]
    ensures Chain(b, at, packets, ifindex)
    decreases |packets|
  {
    if packets != [] {
      var p, rest := packets[0], packets[1..];
      var size := HEADER + |p.data|;
      var front := seq(HEADER, _ => 0) + p.data;
      assert BytesOf(packets) == front + BytesOf(rest) && |front| == size;
      assert b.bytes[at + size..] == b.bytes[at..][size..] == BytesOf(rest);
      forall i | 0 <= i < |p.data| ensures p.data[i] == b.bytes[at + HEADER + i] {
        assert b.bytes[at..][HEADER + i] == front[HEADER + i] == p.data[i];
      }
      var h, t := HeadersOf(packets, at, ifindex), HeadersOf(rest, at + size, ifindex);
      assert h == t[at := FrameHeader(size, |p.data|, HEADER, p.sec, p.usec * 1000)];
      assert at in h && b.headers[at] == h[at];
      assert forall k :: k in t ==> k in h && h[k] == t[k];
      Written(b, rest, at + size, ifindex);
    }
  }

  /** From an open block the kernel can take in any packet, and hand over any packets that fit into 4 GiB. */
  lemma KernelCanAct(open: Block, filling: seq<Packet>, p: Packet, ifindex: int)
    requires !UserOwned(open) && forall i :: 0 <= i < |filling| ==> Writable(filling[i], ifindex)
    requires |BytesOf(filling)| < 0x1_0000_0000 && |filling| < 0x1_0000_0000
    ensures Allowed(open, filling, ifindex, Fill(p, open))
    ensures exists b :: Allowed(open, filling, ifindex, Retire(b))
  {
    var b := Block(1, |filling|, 0, HeadersOf(filling, 0, ifindex), BytesOf(filling));
    OwnershipBit(b);
    assert b.bytes[0..] == BytesOf(filling);
    Written(b, filling, 0, ifindex);
    assert Allowed(open, filling, ifindex, Retire(b));
  }
}
