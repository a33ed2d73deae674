/**
 A packet's way through a slot: header adder, write engine, memory, read engine, header remover (or the
 driver's receive routine).
 */
module SlotRoundTrip {
  import opened Layout
  import opened Arithmetic
  import opened Stream
  import opened LittleEndian
  import opened BurstPlan
  import opened Memory
  import opened SlotFormat
  import A = HeaderAdder
  import R = HeaderRemover
  import W = WriteDma
  import P = WriteDmaProof
  import D = ReadDma

  /** This header and this frame of beats are the packet, as the UDP stack hands it to the adder. */
  ghost predicate IsPacket(hdr: A.UdpHeader, frame: seq<Beat>, p: Packet) {
    && InRange(p)
    && hdr == A.UdpHeader(p.sourceIp, p.sourcePort, p.destIp, p.destPort, |p.payload| + A.UDP_OVERHEAD)
    && Split(frame) == Frames([p.payload], [])
  }

  // ---------------------------------------------------------------------------------------------
  // Through the adder
  // ---------------------------------------------------------------------------------------------

  lemma WordBeatKept(x: nat)
    ensures Kept(A.WordBeat(x)) == Encode(x, 8)
  {
    LeadOfMask(A.WORD, A.WORD);
    var word := Encode(x, A.WORD);
    assert word[..8] == word;
  }

  lemma HeaderField(hdr: A.UdpHeader, p: Packet, k: nat)
    requires hdr == A.UdpHeader(p.sourceIp, p.sourcePort, p.destIp, p.destPort, |p.payload| + A.UDP_OVERHEAD)
    requires |p.payload| < 0x1_0000 && k < A.HEADER_WORDS
    ensures A.HeaderBeats(hdr)[k] == A.WordBeat(Field(p, k))
  {
  }

  lemma NextWord(beats: seq<Beat>, x: nat, bytes: seq<Byte>)
    requires Split(beats) == Frames([], bytes)
    ensures Split(beats + [A.WordBeat(x)]) == Frames([], bytes + Encode(x, 8))
  {
    WordBeatKept(x);
    SplitAppend(beats, A.WordBeat(x));
  }

  /** The header words spell the start of the image. */
  lemma {:induction false} HeaderBytes(hdr: A.UdpHeader, p: Packet, k: nat)
    requires hdr == A.UdpHeader(p.sourceIp, p.sourcePort, p.destIp, p.destPort, |p.payload| + A.UDP_OVERHEAD)
    requires |p.payload| < 0x1_0000 && k <= A.HEADER_WORDS
    ensures Split(A.HeaderBeats(hdr)[..k]) == Frames([], Image(p)[..8 * k])
  {
    if k != 0 {
      var beats, image := A.HeaderBeats(hdr), Image(p);
      HeaderBytes(hdr, p, k - 1);
      HeaderField(hdr, p, k - 1);
      ImageWord(p, k - 1);
      SliceConcat(image, 0, 8 * (k - 1), 8 * k);
      NextWord(beats[..k - 1], Field(p, k - 1), image[..8 * (k - 1)]);
      assert beats[..k] == beats[..k - 1] + [beats[k - 1]];
    }
  }

  /** `g` is `f` behind the open bytes `o`. */
  ghost predicate IsBehind(o: seq<Byte>, f: Frames, g: Frames) {
    && |g.complete| == |f.complete|
    && if f.complete == [] then g.open == o + f.open
       else g.open == f.open && g.complete[0] == o + f.complete[0]
  }

  lemma BehindStep(o: seq<Byte>, f: Frames, g: Frames, b: Beat)
    requires IsBehind(o, f, g)
    ensures IsBehind(o, Extend(f, b), Extend(g, b))
  {
    assert o + f.open + Kept(b) == o + (f.open + Kept(b));
  }

  /** Bytes of an open frame go in front of the first frame that follows. */
  lemma {:induction false} BehindOpen(x: seq<Beat>, y: seq<Beat>)
    requires Split(x).complete == []
    ensures IsBehind(Split(x).open, Split(y), Split(x + y))
  {
    if y == [] {
      assert x + y == x;
    } else {
      var n := |y| - 1;
      BehindOpen(x, y[..n]);
      BehindStep(Split(x).open, Split(y[..n]), Split(x + y[..n]), y[n]);
      SplitAppend(x + y[..n], y[n]);
      assert x + y == x + y[..n] + [y[n]];
    }
  }

  /** The adder's output for a packet is one frame, the packet's image. */
  lemma MessageIsImage(hdr: A.UdpHeader, frame: seq<Beat>, p: Packet)
    requires IsPacket(hdr, frame, p)
    ensures Split(A.HeaderBeats(hdr) + frame) == Frames([Image(p)], [])
  {
    HeaderBytes(hdr, p, A.HEADER_WORDS);
    assert A.HeaderBeats(hdr)[..A.HEADER_WORDS] == A.HeaderBeats(hdr);
    BehindOpen(A.HeaderBeats(hdr), frame);
    assert Image(p)[..HEADER_BYTES] + p.payload == Image(p);
  }

  ghost predicate ArePackets(headers: seq<A.UdpHeader>, frames: seq<seq<Beat>>, sent: seq<Packet>) {
    && |frames| <= |headers| && |frames| <= |sent|
    && forall j :: 0 <= j < |frames| ==> IsPacket(headers[j], frames[j], sent[j])
  }

  /** The frames are the first of these images. */
  ghost predicate AreFirst(frames: seq<seq<Byte>>, images: seq<seq<Byte>>) {
    |frames| <= |images| && forall j :: 0 <= j < |frames| ==> frames[j] == images[j]
  }

  ghost predicate SpellsImage(given: seq<A.UdpHeader>, frame: seq<Beat>, image: seq<Byte>) {
    Split(A.Spelt(given) + frame) == Frames([image], [])
  }

  lemma NextMessage(before: seq<Beat>, given: seq<A.UdpHeader>, frame: seq<Beat>, images: seq<seq<Byte>>)
    requires Split(before).open == [] && AreFirst(Split(before).complete, images) && |Split(before).complete| < |images|
    requires SpellsImage(given, frame, images[|Split(before).complete|])
    ensures var all := before + A.Spelt(given) + frame;
            && Split(all).open == [] && |Split(all).complete| == |Split(before).complete| + 1
            && AreFirst(Split(all).complete, images)
  {
    SplitConcat(before, A.Spelt(given) + frame);
    assert before + A.Spelt(given) + frame == before + (A.Spelt(given) + frame);
  }

  /** The adder's output for a list of packets is the list of their images. */
  lemma {:induction false} MessagesAreImages(given: seq<seq<A.UdpHeader>>, frames: seq<seq<Beat>>,
                                             images: seq<seq<Byte>>)
    requires |frames| <= |given| && |frames| <= |images|
    requires forall j :: 0 <= j < |frames| ==> SpellsImage(given[j], frames[j], images[j])
    ensures Split(A.Messages(given, frames)).open == []
    ensures |Split(A.Messages(given, frames)).complete| == |frames|
    ensures AreFirst(Split(A.Messages(given, frames)).complete, images)
  {
    if frames != [] {
      var n := |frames| - 1;
      MessagesAreImages(given, frames[..n], images);
      NextMessage(A.Messages(given, frames[..n]), given[n], frames[n], images);
    }
  }

  // ---------------------------------------------------------------------------------------------
  // Into memory
  // ---------------------------------------------------------------------------------------------

  /** The descriptor the controller makes for a packet of this UDP length. */
  ghost predicate SlotDescriptor(op: W.Descriptor, udpLength: nat) {
    op.addr % SLOT == 0 && op.len == Min(udpLength + HEADER_BYTES, SLOT)
  }

  /** No later descriptor touches the slot of the j-th. */
  ghost predicate LastInSlot(ops: seq<W.Descriptor>, j: nat)
    requires j < |ops|
  {
    forall k :: j < k < |ops| ==> ops[k].addr % SLOT == 0 && ops[k].len <= SLOT && ops[k].addr != ops[j].addr
  }

  lemma SlotAddressAligned(addr: nat)
    requires addr % SLOT == 0
    ensures Aligned(AXI64, addr) == addr
  {
  }

  lemma SlotsApart(a: nat, b: nat)
    requires a % SLOT == 0 && b % SLOT == 0 && a != b
    ensures a + SLOT <= b || b + SLOT <= a
  {
  }

  /** A stored frame stays until its slot is written again. */
  lemma {:induction false} StoredStays(memory: seq<Byte>, ops: seq<W.Descriptor>, frames: seq<seq<Byte>>, j: nat)
    requires j < |frames| <= |ops| && LastInSlot(ops, j)
    requires ops[j].addr % SLOT == 0 && ops[j].len <= SLOT && ops[j].addr + SLOT <= |memory|
    ensures var stored := P.Stored(ops[j], frames[j]);
            P.Store(AXI64, memory, ops, frames)[ops[j].addr..ops[j].addr + |stored|] == stored
  {
    var n := |frames| - 1;
    SlotAddressAligned(ops[n].addr);
    var before := P.Store(AXI64, memory, ops, frames[..n]);
    if j < n {
      StoredStays(memory, ops, frames[..n], j);
      SlotsApart(ops[j].addr, ops[n].addr);
      var stored := P.Stored(ops[j], frames[j]);
      var after := P.Store(AXI64, memory, ops, frames);
      assert forall x :: ops[j].addr <= x < ops[j].addr + |stored| ==> after[x] == before[x];
    }
  }

  /** What the write engine stored of a packet makes its slot hold the packet. */
  lemma StoredImageHolds(memory: seq<Byte>, op: W.Descriptor, p: Packet)
    requires SlotDescriptor(op, |p.payload| + A.UDP_OVERHEAD) && op.addr + SLOT <= |memory|
    requires var stored := P.Stored(op, Image(p)); memory[op.addr..op.addr + |stored|] == stored
    ensures Holds(memory[op.addr..op.addr + SLOT], p)
  {
    var stored := P.Stored(op, Image(p));
    SliceOfSlice(memory, op.addr, SLOT, 0, |stored|);
  }

  lemma StoredSlotHolds(memory: seq<Byte>, ops: seq<W.Descriptor>, frames: seq<seq<Byte>>, sent: seq<Packet>, j: nat)
    requires j < |frames| <= |ops| && LastInSlot(ops, j) && AreFirst(frames, ImagesOf(sent))
    requires SlotDescriptor(ops[j], |sent[j].payload| + A.UDP_OVERHEAD) && ops[j].addr + SLOT <= |memory|
    ensures Holds(P.Store(AXI64, memory, ops, frames)[ops[j].addr..ops[j].addr + SLOT], sent[j])
  {
    StoredStays(memory, ops, frames, j);
    StoredImageHolds(P.Store(AXI64, memory, ops, frames), ops[j], sent[j]);
  }

  // ---------------------------------------------------------------------------------------------
  // Out of memory
  // ---------------------------------------------------------------------------------------------

  lemma WordIsRead(h: D.History, memory: seq<Byte>, n: nat, k: nat)
    requires D.LegalOps(h.ops) && n < |h.ops| && h.ops[n].addr % SLOT == 0 && h.ops[n].len == SLOT && k < SLOT / 8
    requires D.Carried(AXI64, h.received, h.pushed) && D.MarksOf(h.pushed) <= D.Marks(AXI64, h.ops)
    requires D.FrameIsOut(AXI64, h, n) && D.SlaveReturns(AXI64, h, memory)
    ensures h.ops[n].addr + 8 * k + 8 <= |memory|
    ensures D.FrameOf(AXI64, h, n)[k] ==
            Beat(memory[h.ops[n].addr + 8 * k..h.ops[n].addr + 8 * k + 8], Mask(8, 8), k + 1 == SLOT / 8)
  {
    SlotAddressAligned(h.ops[n].addr);
    D.BeatFromSource(AXI64, h, memory, n, k);
  }

  /** The read engine's beats for a whole-slot descriptor are the slot's. */
  lemma SlotIsRead(h: D.History, memory: seq<Byte>, n: nat)
    requires D.LegalOps(h.ops) && n < |h.ops| && h.ops[n].addr % SLOT == 0 && h.ops[n].len == SLOT
    requires D.Carried(AXI64, h.received, h.pushed) && D.MarksOf(h.pushed) <= D.Marks(AXI64, h.ops)
    requires D.FrameIsOut(AXI64, h, n) && D.SlaveReturns(AXI64, h, memory)
    ensures h.ops[n].addr + SLOT <= |memory|
    ensures D.FrameOf(AXI64, h, n) == SlotBeats(memory[h.ops[n].addr..h.ops[n].addr + SLOT])
  {
    var addr, beats := h.ops[n].addr, D.FrameOf(AXI64, h, n);
    assert |beats| == SLOT / 8;
    WordIsRead(h, memory, n, SLOT / 8 - 1);
    forall k | 0 <= k < SLOT / 8
      ensures beats[k] == SlotBeats(memory[addr..addr + SLOT])[k]
    {
      WordIsRead(h, memory, n, k);
      SliceOfSlice(memory, addr, SLOT, 8 * k, 8);
    }
  }

  // ---------------------------------------------------------------------------------------------
  // The whole way
  // ---------------------------------------------------------------------------------------------

  /** The packets went through the adder, whose output the write engine consumed and stored. */
  ghost predicate WasStored(adder: seq<A.Input>, start: W.Engine, inputs: seq<W.Input>, sent: seq<Packet>) {
    && A.Steady(adder)
    && W.Reset(start) && P.LegalRun(AXI64, inputs)
    && var (r, ha) := A.Run(adder);
       var (e, hw) := P.Run(AXI64, start, inputs);
       && r.state.Idle? && ArePackets(ha.headers, CutFrames(ha.consumed).complete, sent)
       && hw.consumed == ha.emitted
       && e.m.phase.Idle? && hw.delivered == |hw.pushed|
  }

  function ImagesOf(sent: seq<Packet>): (images: seq<seq<Byte>>) {
    seq(|sent|, j requires 0 <= j < |sent| => Image(sent[j]))
  }

  /** The frames the adder makes of the packets are their images. */
  lemma FramesAreImages(adder: seq<A.Input>, sent: seq<Packet>, consumed: seq<Beat>)
    requires A.Steady(adder)
    requires var (r, h) := A.Run(adder);
             r.state.Idle? && ArePackets(h.headers, CutFrames(h.consumed).complete, sent) && consumed == h.emitted
    ensures AreFirst(Split(consumed).complete, ImagesOf(sent)) && Split(consumed).open == []
    ensures |Split(consumed).complete| == |CutFrames(A.Run(adder).1.consumed).complete|
  {
    A.AdderRefinesFunction(adder);
    var h := A.Run(adder).1;
    var frames := CutFrames(h.consumed).complete;
    forall j | 0 <= j < |frames|
      ensures SpellsImage(h.given[j], frames[j], ImagesOf(sent)[j])
    {
      A.SteadyHeaders(adder, j);
      MessageIsImage(h.headers[j], frames[j], sent[j]);
    }
    MessagesAreImages(h.given, frames, ImagesOf(sent));
  }

  /** What a run of the write engine leaves behind when it has stored the images of these packets. */
  ghost predicate Stores(h: W.History, memory: seq<Byte>, sent: seq<Packet>) {
    && (forall b <- h.bursts :: 0 < b.bytes)
    && h.delivered <= |h.pushed| <= |SlaveAddresses(AXI64, h.bursts)|
    && var frames := Split(h.consumed).complete;
       && |frames| == |h.ops| && AreFirst(frames, ImagesOf(sent))
       && P.Landed(AXI64, h, memory) == P.Store(AXI64, memory, h.ops, frames)
  }

  /** Every run of adder and write engine that has come to rest has stored its packets. */
  lemma WriteStores(adder: seq<A.Input>, start: W.Engine, inputs: seq<W.Input>, memory: seq<Byte>, sent: seq<Packet>)
    requires WasStored(adder, start, inputs, sent)
    ensures Stores(P.Run(AXI64, start, inputs).1, memory, sent)
  {
    var (e, h) := P.Run(AXI64, start, inputs);
    P.WriteIsCorrect(AXI64, start, inputs, memory);
    FramesAreImages(adder, sent, h.consumed);
  }

  /** Any packet whose slot has not been written again is held by it. */
  lemma SlotHolds(h: W.History, memory: seq<Byte>, sent: seq<Packet>, j: nat)
    requires Stores(h, memory, sent)
    requires j < |h.ops| && LastInSlot(h.ops, j) && h.ops[j].addr + SLOT <= |memory|
    requires j < |sent| && SlotDescriptor(h.ops[j], |sent[j].payload| + A.UDP_OVERHEAD)
    ensures Holds(P.Landed(AXI64, h, memory)[h.ops[j].addr..h.ops[j].addr + SLOT], sent[j])
  {
    StoredSlotHolds(memory, h.ops, Split(h.consumed).complete, sent, j);
  }

  /** The n-th frame of this run of the read engine is the slot at `addr` of `memory`. */
  ghost predicate Reads(h: D.History, memory: seq<Byte>, n: nat, addr: nat) {
    && D.LegalOps(h.ops) && D.SlaveReturns(AXI64, h, memory)
    && n < |h.ops| && h.ops[n].addr == addr && h.ops[n].len == SLOT && D.FrameIsOut(AXI64, h, n)
  }

  /**
   The round trip: the read engine and the header remover give back addresses, ports and length of the
   packet, and its payload, up to the 2008 bytes a slot has room for, as one frame, exactly when the
   payload is at least one word long.
   */
  lemma RoundTrip(hw: W.History, memory: seq<Byte>, sent: seq<Packet>, j: nat,
                  start: D.Engine, inputs: seq<D.Input>, hr: D.History, n: nat)
    requires Stores(hw, memory, sent)
    requires j < |hw.ops| && LastInSlot(hw.ops, j) && hw.ops[j].addr + SLOT <= |memory|
    requires j < |sent| && InRange(sent[j]) && SlotDescriptor(hw.ops[j], |sent[j].payload| + A.UDP_OVERHEAD)
    requires D.Reset(AXI64, start) && D.LegalRun(AXI64, inputs) && hr == D.Run(AXI64, start, inputs).1
    requires Reads(hr, P.Landed(AXI64, hw, memory), n, hw.ops[j].addr)
    ensures ComesBack(hr, n, sent[j])
  {
    SlotHolds(hw, memory, sent, j);
    D.ReadIsCorrect(AXI64, start, inputs);
    SlotComesBack(hr, P.Landed(AXI64, hw, memory), n, hw.ops[j].addr, sent[j]);
  }

  /** Given to the header remover, the n-th frame read makes it put out the packet. */
  ghost predicate ComesBack(h: D.History, n: nat, p: Packet)
    requires D.LegalOps(h.ops) && n < |h.ops| && D.FrameIsOut(AXI64, h, n)
  {
    var beats := D.FrameOf(AXI64, h, n);
    && R.Words(beats) && |beats| >= R.HEADER_WORDS
    && R.HeaderOf(beats) == R.Header(|p.payload|, p.sourceIp, p.sourcePort, p.destIp, p.destPort)
    && (8 <= |p.payload| <==>
        Split(R.Payload(beats)).complete == [p.payload[..Min(|p.payload|, MAX_PAYLOAD)]])
  }

  lemma SlotComesBack(h: D.History, memory: seq<Byte>, n: nat, addr: nat, p: Packet)
    requires D.LegalOps(h.ops) && n < |h.ops| && Reads(h, memory, n, addr) && addr % SLOT == 0
    requires D.Carried(AXI64, h.received, h.pushed) && D.MarksOf(h.pushed) <= D.Marks(AXI64, h.ops)
    requires addr + SLOT <= |memory| && Holds(memory[addr..addr + SLOT], p) && InRange(p)
    ensures ComesBack(h, n, p)
  {
    SlotIsRead(h, memory, n);
    RemoverReadsSlotIff(memory[addr..addr + SLOT], p);
  }

  // ---------------------------------------------------------------------------------------------
  // The receive routine of the driver
  // ---------------------------------------------------------------------------------------------

  function Word(memory: seq<Byte>, addr: nat, k: nat): nat
    requires addr + 8 * k + 8 <= |memory|
  {
    Decode(memory[addr + 8 * k..addr + 8 * k + 8])
  }

  /** Header first, then as many bytes as it says, even past the end of the slot (but not of the region). */
  function Receive(memory: seq<Byte>, addr: nat): (p: Packet)
    requires addr + HEADER_BYTES <= |memory|
  {
    var length := Word(memory, addr, 0);
    var end := if addr + HEADER_BYTES + length <= |memory| then addr + HEADER_BYTES + length else |memory|;
    Packet(Word(memory, addr, 1), Word(memory, addr, 2), Word(memory, addr, 3), Word(memory, addr, 4),
           memory[addr + HEADER_BYTES..end])
  }

  lemma ReceivedField(memory: seq<Byte>, addr: nat, p: Packet, k: nat)
    requires addr + SLOT <= |memory| && Holds(memory[addr..addr + SLOT], p) && InRange(p) && k < 5
    ensures Word(memory, addr, k) == Field(p, k)
  {
    var slot := memory[addr..addr + SLOT];
    WordOfSlot(slot, p, k);
    SliceOfSlice(memory, addr, SLOT, 8 * k, 8);
    FieldFits(p, k);
    RangeGrows(if k == 1 || k == 3 then 4 else 2, 8);
    DecodeEncode(Field(p, k), 8);
  }

  /**
   The driver receives the packet whole exactly when it fits the slot: a longer one loses its tail to what follows.
   */
  lemma ReceiveReadsSlot(memory: seq<Byte>, addr: nat, p: Packet)
    requires addr + SLOT <= |memory| && Holds(memory[addr..addr + SLOT], p) && InRange(p)
    ensures var q := Receive(memory, addr);
            && (q.sourceIp, q.sourcePort, q.destIp, q.destPort) == (p.sourceIp, p.sourcePort, p.destIp, p.destPort)
            && var k := Min(|p.payload|, MAX_PAYLOAD); k <= |q.payload| && q.payload[..k] == p.payload[..k]
    ensures |p.payload| <= MAX_PAYLOAD ==> Receive(memory, addr) == p
  {
    ReceivedField(memory, addr, p, 0);
    ReceivedField(memory, addr, p, 1);
    ReceivedField(memory, addr, p, 2);
    ReceivedField(memory, addr, p, 3);
    ReceivedField(memory, addr, p, 4);
    PayloadInSlot(memory[addr..addr + SLOT], p);
    var k, q := Min(|p.payload|, MAX_PAYLOAD), Receive(memory, addr);
    assert memory[addr..addr + SLOT][HEADER_BYTES..][..k] == q.payload[..k];
  }
}
