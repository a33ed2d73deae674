/**
 The receive path of all buffers together: the filter decides, the write engine stores into the head slot
 and pushes with wlast, and the receive routine copies the tail slot and pops, all of them at once. What
 the engines do is taken as their theorems have it.
 */
module ReceivePath {
  import opened Layout
  import opened Arithmetic
  import opened Stream
  import opened LittleEndian
  import opened SlotFormat
  import M = AddressMap
  import C = CircularBuffer
  import F = PortFilter

  /** Where the region starts, and the port range, as the registers have them throughout. */
  datatype Setup = Setup(base: nat, min: M.Port, max: M.Port) {
    ghost predicate Valid() { base + TOTAL <= M.WORD && M.Accepts(min, max) }
  }

  /** A packet on its way into a slot. */
  datatype Job = Job(buffer: nat, slot: nat, packet: Packet)

  /** The receive routine on one buffer: at rest, or with the first bytes of a slot copied. */
  datatype Reader = Resting | Copying(slot: nat, copied: seq<Byte>)

  /** `select` is buffer_select_idx, whose ring wlast pushes. */
  datatype System = System(
    memory: seq<Byte>,
    rings: seq<C.Registers>,
    select: nat,
    jobs: seq<Job>,
    readers: seq<Reader>)

  /** What the hardware does in a cycle: the filter's decision on a packet, a change of memory, or wlast. */
  datatype Hardware = Quiet | Decide(open: seq<bool>, packet: Packet) | Store(memory: seq<Byte>) | Push

  /** What the receive routine does: it reads the registers, copies one more byte, or notifies the pop. */
  datatype Driver = Away | Look(port: M.Port) | Copy(port: M.Port) | Pop(port: M.Port)

  datatype Input = Input(hw: Hardware, driver: Driver)

  ghost predicate Shape(setup: Setup, s: System) {
    && setup.base + TOTAL <= |s.memory| && |s.rings| == |s.readers| == PORTS
  }

  predicate On(setup: Setup, d: Driver, b: nat) { !d.Away? && M.DriverBuffer(setup.min, d.port) == b }

  ghost predicate Decides(i: Input) { i.hw.Decide? && InRange(i.hw.packet) && |i.hw.open| == PORTS }

  ghost predicate Admits(setup: Setup, i: Input) {
    Decides(i) && F.Admits(F.Config(setup.min, setup.max, i.hw.open), i.hw.packet.destPort)
  }

  /** The routine has the header, and as many bytes behind it as the header says. */
  predicate Done(copied: seq<Byte>) {
    |copied| >= HEADER_BYTES && |copied| >= HEADER_BYTES + Decode(copied[..8])
  }

  function Received(copied: seq<Byte>): (p: Packet)
    requires |copied| >= HEADER_BYTES
  {
    Packet(Decode(copied[8..16]), Decode(copied[16..24]), Decode(copied[24..32]), Decode(copied[32..40]),
           copied[HEADER_BYTES..])
  }

  predicate Pops(setup: Setup, d: Driver, reader: Reader, b: nat) {
    On(setup, d, b) && d.Pop? && reader.Copying? && Done(reader.copied)
  }

  predicate Pushes(s: System, i: Input, b: nat) { i.hw.Push? && s.select == b }

  function At(memory: seq<Byte>, x: nat): Byte { if x < |memory| then memory[x] else 0 }

  /** The place the driver computes for a receive slot. */
  function Place(setup: Setup, b: nat, slot: nat): nat {
    M.DriverOffset(M.Rx(b, slot)) + setup.base
  }

  function NextReader(setup: Setup, memory: seq<Byte>, ring: C.Registers, reader: Reader, d: Driver, b: nat): Reader {
    if !On(setup, d, b) then reader
    else
      match (d, reader)
      case (Look(_), Resting) => if ring.empty then Resting else Copying(ring.tail, [])
      case (Copy(_), Copying(slot, copied)) =>
        if Done(copied) then reader
        else Copying(slot, copied + [At(memory, Place(setup, b, slot) + |copied|)])
      case (Pop(_), Copying(_, copied)) => if Done(copied) then Resting else reader
      case _ => reader
  }

  /** buffer_select_idx follows every decision, also the decision to discard. */
  ghost function Next(setup: Setup, s: System, i: Input): (s': System)
    requires Shape(setup, s) && (i.hw.Decide? ==> Decides(i))
  {
    var target := if Decides(i) then M.HardwareBuffer(setup.min, i.hw.packet.destPort) else s.select;
    System(
      if i.hw.Store? then i.hw.memory else s.memory,
      seq(PORTS, b requires 0 <= b < PORTS =>
        C.Next(SLOTS, s.rings[b], Pushes(s, i, b), Pops(setup, i.driver, s.readers[b], b))),
      target,
      if Admits(setup, i) then s.jobs + [Job(target, s.rings[target].head, i.hw.packet)]
      else if i.hw.Push? && s.jobs != [] then s.jobs[1..]
      else s.jobs,
      seq(PORTS, b requires 0 <= b < PORTS => NextReader(setup, s.memory, s.rings[b], s.readers[b], i.driver, b)))
  }

  /** The packets admitted by the filter, and for each buffer those the receive routine has returned. */
  datatype History = History(admitted: seq<Packet>, returned: seq<seq<Packet>>)

  ghost function Record(setup: Setup, s: System, i: Input, h: History): (h': History)
    requires Shape(setup, s) && |h.returned| == PORTS
    ensures |h'.returned| == PORTS
  {
    History(
      if Admits(setup, i) then h.admitted + [i.hw.packet] else h.admitted,
      seq(PORTS, b requires 0 <= b < PORTS =>
        if Pops(setup, i.driver, s.readers[b], b) then h.returned[b] + [Received(s.readers[b].copied)]
        else h.returned[b]))
  }

  ghost predicate Reset(setup: Setup, s: System) {
    && Shape(setup, s) && s.jobs == []
    && forall b :: 0 <= b < PORTS ==> s.rings[b] == C.RESET && s.readers[b].Resting?
  }

  function Empty(): (h: History)
    ensures |h.returned| == PORTS && forall b :: 0 <= b < PORTS ==> h.returned[b] == []
  {
    History([], seq(PORTS, b requires 0 <= b < PORTS => []))
  }

  // ---------------------------------------------------------------------------------------------
  // What the neighbours guarantee, and what they do not
  // ---------------------------------------------------------------------------------------------

  /** The slot as the engine addresses it. */
  ghost predicate InJob(setup: Setup, j: Job, x: int) {
    var addr := M.HardwareAddress(setup.base, M.Rx(j.buffer, j.slot));
    addr <= x < addr + SLOT
  }

  /** A byte of the receive buffers, but not of the slot being stored to. */
  ghost predicate IsKept(setup: Setup, s: System, x: int) {
    setup.base <= x < setup.base + PORTS * BUFFER && (s.jobs == [] || !InJob(setup, s.jobs[0], x))
  }

  /** Only the slot being stored to changes; the rest of memory may be anything, but for the receive buffers. */
  ghost predicate Confined(setup: Setup, s: System, memory: seq<Byte>) {
    && |memory| == |s.memory|
    && forall x :: 0 <= x < |memory| && IsKept(setup, s, x) ==> memory[x] == s.memory[x]
  }

  /** At wlast the slot holds the packet. */
  ghost predicate Stored(setup: Setup, s: System) {
    && s.jobs != []
    && var addr := M.HardwareAddress(setup.base, M.Rx(s.jobs[0].buffer, s.jobs[0].slot));
       0 <= addr && addr + SLOT <= |s.memory| && Holds(s.memory[addr..addr + SLOT], s.jobs[0].packet)
  }

  /** What filter, engine and callers of the receive routine guarantee. */
  ghost predicate Legal(setup: Setup, s: System, i: Input) {
    && (i.hw.Decide? ==> Decides(i))
    && (i.hw.Store? ==> Confined(setup, s, i.hw.memory))
    && (i.hw.Push? ==> Stored(setup, s))
    && (!i.driver.Away? ==> M.InRange(setup.min, setup.max, i.driver.port))
  }

  /** A packet is decided on only when the one before has been pushed. */
  predicate OnTime(s: System, i: Input) { i.hw.Decide? ==> s.jobs == [] }

  /** The engine stores into the slot, or pushes it, only while its buffer has room. */
  ghost predicate Roomy(setup: Setup, s: System, i: Input) {
    s.jobs != [] && s.jobs[0].buffer < |s.rings| && s.rings[s.jobs[0].buffer].full ==>
      !i.hw.Push? && (i.hw.Store? ==> Spares(setup, s.jobs[0], s.memory, i.hw.memory))
  }

  ghost predicate Spares(setup: Setup, j: Job, memory: seq<Byte>, memory': seq<Byte>) {
    |memory'| == |memory| && forall x :: 0 <= x < |memory| && InJob(setup, j, x) ==> memory'[x] == memory[x]
  }

  // ---------------------------------------------------------------------------------------------
  // One buffer
  // ---------------------------------------------------------------------------------------------

  function Count(b: bool): nat { if b then 1 else 0 }

  ghost function SlotBytes(setup: Setup, memory: seq<Byte>, b: nat, slot: nat): (bytes: seq<Byte>)
    requires setup.base + TOTAL <= |memory| && b < PORTS && slot < SLOTS
    ensures |bytes| == SLOT
  {
    M.OffsetIsSmall(M.Rx(b, slot));
    memory[Place(setup, b, slot)..Place(setup, b, slot) + SLOT]
  }

  /** The slots from `tail` on hold these packets. */
  ghost predicate Held(setup: Setup, memory: seq<Byte>, b: nat, tail: nat, packets: seq<Packet>)
    requires setup.base + TOTAL <= |memory| && b < PORTS && tail < SLOTS
  {
    && |packets| <= SLOTS
    && forall k :: 0 <= k < |packets| ==> Holds(SlotBytes(setup, memory, b, C.Slot(SLOTS, tail, k)), packets[k])
  }

  /** The bytes copied are the slot's, as far as it goes, and no more than the packet has. */
  ghost predicate Copied(slot: seq<Byte>, p: Packet, copied: seq<Byte>) {
    && |slot| == SLOT && |copied| <= HEADER_BYTES + |p.payload|
    && forall k :: 0 <= k < |copied| && k < SLOT ==> copied[k] == slot[k]
  }

  /** What is returned of a packet: all of it, but for the bytes that did not fit its slot. */
  ghost predicate Same(got: Packet, sent: Packet) {
    && got.(payload := []) == sent.(payload := [])
    && |got.payload| == |sent.payload|
    && var n := Min(|sent.payload|, MAX_PAYLOAD); got.payload[..n] == sent.payload[..n]
  }

  /** The packets admitted to a buffer are those returned, those in its slots, and the one being stored. */
  ghost predicate BufferInv(setup: Setup, memory: seq<Byte>, b: nat, ring: C.Registers, reader: Reader,
                            admitted: seq<Packet>, returned: seq<Packet>, storing: bool)
    requires setup.base + TOTAL <= |memory| && b < PORTS
  {
    var n, to := |returned|, |admitted| - Count(storing);
    && n <= to && C.Tracks(SLOTS, ring, to - n)
    && Held(setup, memory, b, ring.tail, admitted[n..to])
    && (reader.Copying? ==>
          && n < to && reader.slot == ring.tail
          && Copied(SlotBytes(setup, memory, b, ring.tail), admitted[n], reader.copied))
    && (forall k :: 0 <= k < n ==> Same(returned[k], admitted[k]))
  }

  lemma HeldPush(setup: Setup, memory: seq<Byte>, b: nat, tail: nat, packets: seq<Packet>, p: Packet)
    requires setup.base + TOTAL <= |memory| && b < PORTS && tail < SLOTS && |packets| < SLOTS
    requires Held(setup, memory, b, tail, packets)
    requires Holds(SlotBytes(setup, memory, b, C.Slot(SLOTS, tail, |packets|)), p)
    ensures Held(setup, memory, b, tail, packets + [p])
  {
  }

  lemma HeldPop(setup: Setup, memory: seq<Byte>, b: nat, tail: nat, packets: seq<Packet>)
    requires setup.base + TOTAL <= |memory| && b < PORTS && tail < SLOTS && packets != []
    requires Held(setup, memory, b, tail, packets)
    ensures Held(setup, memory, b, C.Increment(SLOTS, tail), packets[1..])
  {
    forall k | 0 <= k < |packets| - 1
      ensures C.Slot(SLOTS, C.Increment(SLOTS, tail), k) == C.Slot(SLOTS, tail, k + 1)
    {
    }
  }

  lemma HeldElsewhere(setup: Setup, memory: seq<Byte>, memory': seq<Byte>, b: nat, tail: nat, packets: seq<Packet>)
    requires setup.base + TOTAL <= |memory| == |memory'| && b < PORTS && tail < SLOTS
    requires Held(setup, memory, b, tail, packets)
    requires forall k :: 0 <= k < |packets| ==>
               var slot := C.Slot(SLOTS, tail, k);
               SlotBytes(setup, memory', b, slot) == SlotBytes(setup, memory, b, slot)
    ensures Held(setup, memory', b, tail, packets)
  {
  }

  /** The header the routine decodes is the packet's. */
  lemma CopiedField(slot: seq<Byte>, p: Packet, copied: seq<Byte>, k: nat)
    requires Holds(slot, p) && InRange(p) && Copied(slot, p, copied) && k < 5 && 8 * k + 8 <= |copied|
    ensures Decode(copied[8 * k..8 * k + 8]) == Field(p, k)
  {
    WordOfSlot(slot, p, k);
    assert copied[8 * k..8 * k + 8] == slot[8 * k..8 * k + 8];
    FieldFits(p, k);
    RangeGrows(if k == 1 || k == 3 then 4 else 2, 8);
    DecodeEncode(Field(p, k), 8);
  }

  /** The routine is done exactly when it has as many bytes as the packet's image. */
  lemma DoneIff(slot: seq<Byte>, p: Packet, copied: seq<Byte>)
    requires Holds(slot, p) && InRange(p) && Copied(slot, p, copied)
    ensures Done(copied) <==> |copied| == HEADER_BYTES + |p.payload|
  {
    if |copied| >= HEADER_BYTES {
      CopiedField(slot, p, copied, 0);
      assert copied[..8] == copied[0..8];
    }
  }

  lemma CopiedIsSame(slot: seq<Byte>, p: Packet, copied: seq<Byte>)
    requires Holds(slot, p) && InRange(p) && Copied(slot, p, copied) && Done(copied)
    ensures Same(Received(copied), p)
  {
    DoneIff(slot, p, copied);
    CopiedField(slot, p, copied, 1);
    CopiedField(slot, p, copied, 2);
    CopiedField(slot, p, copied, 3);
    CopiedField(slot, p, copied, 4);
    PayloadInSlot(slot, p);
    var n := Min(|p.payload|, MAX_PAYLOAD);
    assert copied[HEADER_BYTES..][..n] == slot[HEADER_BYTES..][..n];
  }

  // ---------------------------------------------------------------------------------------------
  // One cycle of one buffer: the driver's part, then the hardware's
  // ---------------------------------------------------------------------------------------------

  lemma LookKeeps(setup: Setup, memory: seq<Byte>, b: nat, ring: C.Registers, reader: Reader, d: Driver,
                  admitted: seq<Packet>, returned: seq<Packet>, storing: bool)
    requires setup.base + TOTAL <= |memory| && b < PORTS && !d.Copy?
    requires BufferInv(setup, memory, b, ring, reader, admitted, returned, storing)
    requires !Pops(setup, d, reader, b)
    ensures BufferInv(setup, memory, b, ring, NextReader(setup, memory, ring, reader, d, b), admitted, returned,
                      storing)
  {
  }

  lemma CopyKeeps(setup: Setup, memory: seq<Byte>, b: nat, ring: C.Registers, reader: Reader, d: Driver,
                  admitted: seq<Packet>, returned: seq<Packet>, storing: bool)
    requires setup.base + TOTAL <= |memory| && b < PORTS && d.Copy?
    requires forall k :: 0 <= k < |admitted| ==> InRange(admitted[k])
    requires BufferInv(setup, memory, b, ring, reader, admitted, returned, storing)
    ensures BufferInv(setup, memory, b, ring, NextReader(setup, memory, ring, reader, d, b), admitted, returned,
                      storing)
  {
    if On(setup, d, b) && reader.Copying? && !Done(reader.copied) {
      var p, n := admitted[|returned|], |reader.copied|;
      var slot := SlotBytes(setup, memory, b, ring.tail);
      assert admitted[|returned|..|admitted| - Count(storing)][0] == p;
      assert Holds(SlotBytes(setup, memory, b, C.Slot(SLOTS, ring.tail, 0)), p);
      DoneIff(slot, p, reader.copied);
      M.OffsetIsSmall(M.Rx(b, ring.tail));
      assert n < SLOT ==> At(memory, Place(setup, b, ring.tail) + n) == slot[n];
    }
  }

  lemma PopKeeps(setup: Setup, memory: seq<Byte>, b: nat, ring: C.Registers, reader: Reader,
                 admitted: seq<Packet>, returned: seq<Packet>, storing: bool)
    requires setup.base + TOTAL <= |memory| && b < PORTS
    requires forall k :: 0 <= k < |admitted| ==> InRange(admitted[k])
    requires BufferInv(setup, memory, b, ring, reader, admitted, returned, storing)
    requires reader.Copying? && Done(reader.copied)
    ensures BufferInv(setup, memory, b, C.Next(SLOTS, ring, false, true), Resting, admitted,
                      returned + [Received(reader.copied)], storing)
  {
    var n, to := |returned|, |admitted| - Count(storing);
    var queue := admitted[n..to];
    assert queue[0] == admitted[n];
    assert Holds(SlotBytes(setup, memory, b, C.Slot(SLOTS, ring.tail, 0)), queue[0]);
    CopiedIsSame(SlotBytes(setup, memory, b, ring.tail), admitted[n], reader.copied);
    C.CountFollowsIff(SLOTS, ring, to - n, false, true);
    HeldPop(setup, memory, b, ring.tail, queue);
    assert queue[1..] == admitted[n + 1..to];
  }

  /** The driver's part of a cycle on one buffer. */
  lemma DriverKeeps(setup: Setup, memory: seq<Byte>, b: nat, ring: C.Registers, reader: Reader, d: Driver,
                    admitted: seq<Packet>, returned: seq<Packet>, storing: bool)
    requires setup.base + TOTAL <= |memory| && b < PORTS
    requires forall k :: 0 <= k < |admitted| ==> InRange(admitted[k])
    requires BufferInv(setup, memory, b, ring, reader, admitted, returned, storing)
    ensures var pop := Pops(setup, d, reader, b);
            BufferInv(setup, memory, b, if pop then C.Next(SLOTS, ring, false, true) else ring,
                      NextReader(setup, memory, ring, reader, d, b), admitted,
                      if pop then returned + [Received(reader.copied)] else returned, storing)
  {
    if Pops(setup, d, reader, b) {
      PopKeeps(setup, memory, b, ring, reader, admitted, returned, storing);
    } else if d.Copy? {
      CopyKeeps(setup, memory, b, ring, reader, d, admitted, returned, storing);
    } else {
      LookKeeps(setup, memory, b, ring, reader, d, admitted, returned, storing);
    }
  }

  lemma StoreKeeps(setup: Setup, memory: seq<Byte>, memory': seq<Byte>, b: nat, ring: C.Registers, reader: Reader,
                   admitted: seq<Packet>, returned: seq<Packet>, storing: bool)
    requires setup.base + TOTAL <= |memory| == |memory'| && b < PORTS
    requires BufferInv(setup, memory, b, ring, reader, admitted, returned, storing)
    requires forall k :: 0 <= k < |admitted| - Count(storing) - |returned| ==>
               var slot := C.Slot(SLOTS, ring.tail, k);
               SlotBytes(setup, memory', b, slot) == SlotBytes(setup, memory, b, slot)
    ensures BufferInv(setup, memory', b, ring, reader, admitted, returned, storing)
  {
    HeldElsewhere(setup, memory, memory', b, ring.tail, admitted[|returned|..|admitted| - Count(storing)]);
    if reader.Copying? {
      assert C.Slot(SLOTS, ring.tail, 0) == ring.tail;
    }
  }

  lemma AdmitKeeps(setup: Setup, memory: seq<Byte>, b: nat, ring: C.Registers, reader: Reader,
                   admitted: seq<Packet>, returned: seq<Packet>, p: Packet)
    requires setup.base + TOTAL <= |memory| && b < PORTS
    requires BufferInv(setup, memory, b, ring, reader, admitted, returned, false)
    ensures BufferInv(setup, memory, b, ring, reader, admitted + [p], returned, true)
  {
    assert (admitted + [p])[|returned|..|admitted|] == admitted[|returned|..];
  }

  lemma PushKeeps(setup: Setup, memory: seq<Byte>, b: nat, ring: C.Registers, reader: Reader,
                  admitted: seq<Packet>, returned: seq<Packet>)
    requires setup.base + TOTAL <= |memory| && b < PORTS && admitted != [] && !ring.full && ring.head < SLOTS
    requires BufferInv(setup, memory, b, ring, reader, admitted, returned, true)
    requires Holds(SlotBytes(setup, memory, b, ring.head), admitted[|admitted| - 1])
    ensures BufferInv(setup, memory, b, C.Next(SLOTS, ring, true, false), reader, admitted, returned, false)
  {
    var n, to := |returned|, |admitted| - 1;
    C.CountFollowsIff(SLOTS, ring, to - n, true, false);
    HeldPush(setup, memory, b, ring.tail, admitted[n..to], admitted[to]);
    assert admitted[n..to] + [admitted[to]] == admitted[n..];
  }

  /** A push and a pop in one cycle are a pop and then a push. */
  lemma PushAfterPop(r: C.Registers, count: int)
    requires C.Tracks(SLOTS, r, count) && 0 < count < SLOTS
    ensures C.Next(SLOTS, C.Next(SLOTS, r, false, true), true, false) == C.Next(SLOTS, r, true, true)
  {
  }

  // ---------------------------------------------------------------------------------------------
  // All buffers
  // ---------------------------------------------------------------------------------------------

  /** The packets for one port, in order. */
  function ForPort(packets: seq<Packet>, port: nat): (p: seq<Packet>) {
    if packets == [] then []
    else
      var n := |packets| - 1;
      ForPort(packets[..n], port) + if packets[n].destPort == port then [packets[n]] else []
  }

  lemma ForPortAppend(packets: seq<Packet>, p: Packet, port: nat)
    ensures ForPort(packets + [p], port)
         == if p.destPort == port then ForPort(packets, port) + [p] else ForPort(packets, port)
  {
    assert (packets + [p])[..|packets|] == packets;
  }

  ghost predicate Fit(packets: seq<Packet>) {
    forall k :: 0 <= k < |packets| ==> InRange(packets[k])
  }

  lemma {:induction false} ForPortFits(packets: seq<Packet>, port: nat)
    requires Fit(packets)
    ensures Fit(ForPort(packets, port))
  {
    if packets != [] {
      ForPortFits(packets[..|packets| - 1], port);
    }
  }

  predicate Storing(s: System, b: nat) { s.jobs != [] && s.jobs[0].buffer == b }

  ghost predicate JobInv(setup: Setup, s: System, h: History) {
    && |s.jobs| <= 1
    && (s.jobs != [] ==>
          var j := s.jobs[0];
          var admitted := ForPort(h.admitted, setup.min + j.buffer);
          && j.buffer == s.select < |s.rings| && j.slot == s.rings[j.buffer].head
          && admitted != [] && admitted[|admitted| - 1] == j.packet)
  }

  ghost predicate BufferOk(setup: Setup, s: System, h: History, b: nat)
    requires Shape(setup, s) && |h.returned| == PORTS && b < PORTS
  {
    BufferInv(setup, s.memory, b, s.rings[b], s.readers[b], ForPort(h.admitted, setup.min + b), h.returned[b],
              Storing(s, b))
  }

  ghost predicate Inv(setup: Setup, s: System, h: History) {
    && Shape(setup, s) && |h.returned| == PORTS && Fit(h.admitted)
    && JobInv(setup, s, h)
    && forall b :: 0 <= b < PORTS ==> BufferOk(setup, s, h, b)
  }

  /** The engine's address is the driver's, when the whole region is addressable. */
  lemma SameAddress(setup: Setup, b: nat, slot: nat)
    requires setup.Valid() && b < PORTS && slot < SLOTS
    ensures M.HardwareAddress(setup.base, M.Rx(b, slot)) == Place(setup, b, slot)
    ensures setup.base <= Place(setup, b, slot) && Place(setup, b, slot) + SLOT <= setup.base + PORTS * BUFFER
  {
    M.OffsetIsSmall(M.Rx(b, slot));
    M.AddressesAgreeIff(setup.base, M.Rx(b, slot));
  }

  /** Storing to one slot leaves the others alone. */
  lemma OtherSlotIsKept(setup: Setup, s: System, memory: seq<Byte>, b: nat, slot: nat)
    requires setup.Valid() && Shape(setup, s) && b < PORTS && slot < SLOTS && Confined(setup, s, memory)
    requires s.jobs != [] ==>
               var j := s.jobs[0]; j.buffer < PORTS && j.slot < SLOTS && (j.buffer, j.slot) != (b, slot)
    ensures SlotBytes(setup, memory, b, slot) == SlotBytes(setup, s.memory, b, slot)
  {
    var at := Place(setup, b, slot);
    SameAddress(setup, b, slot);
    if s.jobs != [] {
      var j := s.jobs[0];
      SameAddress(setup, j.buffer, j.slot);
      M.SlotsAreDisjoint(M.Rx(b, slot), M.Rx(j.buffer, j.slot));
    }
    forall x | at <= x < at + SLOT
      ensures memory[x] == s.memory[x]
    {
      assert IsKept(setup, s, x);
    }
  }

  /** Nor does a store change any slot that writes nothing new to its own. */
  lemma SparedSlotIsKept(setup: Setup, s: System, memory: seq<Byte>, b: nat, slot: nat)
    requires setup.Valid() && Shape(setup, s) && b < PORTS && slot < SLOTS && Confined(setup, s, memory)
    requires s.jobs != [] && Spares(setup, s.jobs[0], s.memory, memory)
    ensures SlotBytes(setup, memory, b, slot) == SlotBytes(setup, s.memory, b, slot)
  {
    var at := Place(setup, b, slot);
    SameAddress(setup, b, slot);
    forall x | at <= x < at + SLOT
      ensures memory[x] == s.memory[x]
    {
      assert IsKept(setup, s, x) || InJob(setup, s.jobs[0], x);
    }
  }

  /** A store leaves every slot alone that is in use. */
  lemma UsedSlotIsKept(setup: Setup, s: System, i: Input, h: History, b: nat, k: nat, count: nat)
    requires setup.Valid() && Inv(setup, s, h) && Legal(setup, s, i) && Roomy(setup, s, i) && i.hw.Store?
    requires b < PORTS && C.Tracks(SLOTS, s.rings[b], count) && k < count
    ensures var slot := C.Slot(SLOTS, s.rings[b].tail, k);
            SlotBytes(setup, i.hw.memory, b, slot) == SlotBytes(setup, s.memory, b, slot)
  {
    var slot := C.Slot(SLOTS, s.rings[b].tail, k);
    if s.jobs != [] {
      assert BufferOk(setup, s, h, s.jobs[0].buffer);
    }
    if s.jobs != [] && s.rings[s.jobs[0].buffer].full {
      SparedSlotIsKept(setup, s, i.hw.memory, b, slot);
    } else {
      OtherSlotIsKept(setup, s, i.hw.memory, b, slot);
    }
  }

  /** The hardware's part of a cycle on one buffer, after the driver's: a store. */
  lemma StoreStep(setup: Setup, s: System, i: Input, h: History, b: nat, pop: bool, ring: C.Registers, reader: Reader,
                  returned: seq<Packet>, count: nat)
    requires setup.Valid() && Inv(setup, s, h) && Legal(setup, s, i) && Roomy(setup, s, i) && i.hw.Store? && b < PORTS
    requires C.Tracks(SLOTS, s.rings[b], count) && (pop ==> 0 < count)
    requires ring == if pop then C.Next(SLOTS, s.rings[b], false, true) else s.rings[b]
    requires var admitted := ForPort(h.admitted, setup.min + b);
             && BufferInv(setup, s.memory, b, ring, reader, admitted, returned, Storing(s, b))
             && |admitted| - Count(Storing(s, b)) - |returned| == count - Count(pop)
    ensures BufferInv(setup, i.hw.memory, b, ring, reader, ForPort(h.admitted, setup.min + b), returned, Storing(s, b))
  {
    forall k | 0 <= k < count - Count(pop)
      ensures var slot := C.Slot(SLOTS, ring.tail, k);
              SlotBytes(setup, i.hw.memory, b, slot) == SlotBytes(setup, s.memory, b, slot)
    {
      UsedSlotIsKept(setup, s, i, h, b, k + Count(pop), count);
      assert C.Slot(SLOTS, ring.tail, k) == C.Slot(SLOTS, s.rings[b].tail, k + Count(pop));
    }
    StoreKeeps(setup, s.memory, i.hw.memory, b, ring, reader, ForPort(h.admitted, setup.min + b), returned,
               Storing(s, b));
  }

  /** Filter and driver agree on the buffer of an admitted packet. */
  lemma AdmittedBuffer(setup: Setup, i: Input, b: nat)
    requires setup.Valid() && Admits(setup, i) && b < PORTS
    ensures var p := i.hw.packet;
            M.InRange(setup.min, setup.max, p.destPort)
            && (M.HardwareBuffer(setup.min, p.destPort) == b <==> p.destPort == setup.min + b)
  {
    M.BuffersAgree(setup.min, setup.max, i.hw.packet.destPort);
  }

  /** A decision: a packet for this buffer is admitted, or none. */
  lemma DecideStep(setup: Setup, s: System, i: Input, h: History, b: nat, ring: C.Registers, reader: Reader,
                   returned: seq<Packet>)
    requires setup.Valid() && Inv(setup, s, h) && Legal(setup, s, i) && OnTime(s, i) && i.hw.Decide? && b < PORTS
    requires BufferInv(setup, s.memory, b, ring, reader, ForPort(h.admitted, setup.min + b), returned, false)
    ensures var s', h' := Next(setup, s, i), Record(setup, s, i, h);
            BufferInv(setup, s.memory, b, ring, reader, ForPort(h'.admitted, setup.min + b), returned, Storing(s', b))
  {
    if Admits(setup, i) {
      AdmittedBuffer(setup, i, b);
      ForPortAppend(h.admitted, i.hw.packet, setup.min + b);
      if i.hw.packet.destPort == setup.min + b {
        AdmitKeeps(setup, s.memory, b, ring, reader, ForPort(h.admitted, setup.min + b), returned, i.hw.packet);
      }
    }
  }

  /** What wlast finds: the slot behind the queue holds the packet being stored. */
  lemma PushFinds(setup: Setup, s: System, i: Input, h: History)
    requires setup.Valid() && Inv(setup, s, h) && Legal(setup, s, i) && Roomy(setup, s, i) && i.hw.Push?
    ensures var b := s.select;
            && b < PORTS && |s.jobs| == 1 && Storing(s, b) && !s.rings[b].full && s.rings[b].head < SLOTS
            && Holds(SlotBytes(setup, s.memory, b, s.rings[b].head), s.jobs[0].packet)
  {
    assert BufferOk(setup, s, h, s.select);
    SameAddress(setup, s.select, s.rings[s.select].head);
  }

  /** A push of the selected buffer. */
  lemma PushStep(setup: Setup, s: System, i: Input, h: History, b: nat, pop: bool, ring: C.Registers, reader: Reader,
                 returned: seq<Packet>, count: nat)
    requires setup.Valid() && Inv(setup, s, h) && Legal(setup, s, i) && Roomy(setup, s, i) && i.hw.Push?
    requires b == s.select < PORTS && C.Tracks(SLOTS, s.rings[b], count) && (pop ==> 0 < count)
    requires ring == if pop then C.Next(SLOTS, s.rings[b], false, true) else s.rings[b]
    requires BufferInv(setup, s.memory, b, ring, reader, ForPort(h.admitted, setup.min + b), returned, Storing(s, b))
    ensures Storing(s, b)
    ensures BufferInv(setup, s.memory, b, C.Next(SLOTS, s.rings[b], true, pop), reader,
                      ForPort(h.admitted, setup.min + b), returned, false)
  {
    PushFinds(setup, s, i, h);
    PushKeeps(setup, s.memory, b, ring, reader, ForPort(h.admitted, setup.min + b), returned);
    if pop {
      PushAfterPop(s.rings[b], count);
    }
  }

  /** Registers and history of one buffer after a cycle. */
  lemma NextBuffer(setup: Setup, s: System, i: Input, h: History, b: nat)
    requires Shape(setup, s) && |h.returned| == PORTS && Legal(setup, s, i) && b < PORTS
    ensures var s', h' := Next(setup, s, i), Record(setup, s, i, h);
            var pop := Pops(setup, i.driver, s.readers[b], b);
            && Shape(setup, s')
            && s'.memory == (if i.hw.Store? then i.hw.memory else s.memory)
            && s'.rings[b] == C.Next(SLOTS, s.rings[b], Pushes(s, i, b), pop)
            && s'.readers[b] == NextReader(setup, s.memory, s.rings[b], s.readers[b], i.driver, b)
            && h'.returned[b] == (if pop then h.returned[b] + [Received(s.readers[b].copied)] else h.returned[b])
            && (!i.hw.Decide? ==> h'.admitted == h.admitted)
  {
  }

  /** The driver's part of a cycle leaves a buffer like this, with `count` packets in it before. */
  ghost predicate Driven(setup: Setup, s: System, i: Input, h: History, b: nat, ring: C.Registers, count: nat)
    requires Shape(setup, s) && |h.returned| == PORTS && b < PORTS
  {
    var pop := Pops(setup, i.driver, s.readers[b], b);
    && C.Tracks(SLOTS, s.rings[b], count) && (pop ==> 0 < count)
    && ring == (if pop then C.Next(SLOTS, s.rings[b], false, true) else s.rings[b])
    && |ForPort(h.admitted, setup.min + b)| - Count(Storing(s, b)) - |h.returned[b]| == count
    && BufferInv(setup, s.memory, b, ring, NextReader(setup, s.memory, s.rings[b], s.readers[b], i.driver, b),
                 ForPort(h.admitted, setup.min + b), Record(setup, s, i, h).returned[b], Storing(s, b))
  }

  lemma NextReturned(setup: Setup, s: System, i: Input, h: History, b: nat)
    requires Shape(setup, s) && |h.returned| == PORTS && b < PORTS
    ensures Record(setup, s, i, h).returned[b]
         == if Pops(setup, i.driver, s.readers[b], b) then h.returned[b] + [Received(s.readers[b].copied)]
            else h.returned[b]
  {
  }

  lemma CountOf(setup: Setup, s: System, h: History, b: nat)
    requires Shape(setup, s) && |h.returned| == PORTS && b < PORTS && BufferOk(setup, s, h, b)
    ensures var count := |ForPort(h.admitted, setup.min + b)| - Count(Storing(s, b)) - |h.returned[b]|;
            C.Tracks(SLOTS, s.rings[b], count) && (s.readers[b].Copying? ==> 0 < count)
  {
  }

  lemma DriverStep(setup: Setup, s: System, i: Input, h: History, b: nat) returns (ring: C.Registers, count: nat)
    requires Shape(setup, s) && |h.returned| == PORTS && Fit(h.admitted) && b < PORTS && BufferOk(setup, s, h, b)
    ensures Driven(setup, s, i, h, b, ring, count)
  {
    var admitted := ForPort(h.admitted, setup.min + b);
    CountOf(setup, s, h, b);
    NextReturned(setup, s, i, h, b);
    ForPortFits(h.admitted, setup.min + b);
    DriverKeeps(setup, s.memory, b, s.rings[b], s.readers[b], i.driver, admitted, h.returned[b], Storing(s, b));
    ring := if Pops(setup, i.driver, s.readers[b], b) then C.Next(SLOTS, s.rings[b], false, true) else s.rings[b];
    count := |admitted| - Count(Storing(s, b)) - |h.returned[b]|;
  }

  lemma BufferStep(setup: Setup, s: System, i: Input, h: History, b: nat)
    requires setup.Valid() && Inv(setup, s, h) && Legal(setup, s, i) && OnTime(s, i) && Roomy(setup, s, i) && b < PORTS
    ensures Shape(setup, Next(setup, s, i)) && BufferOk(setup, Next(setup, s, i), Record(setup, s, i, h), b)
  {
    assert BufferOk(setup, s, h, b);
    var ring, count := DriverStep(setup, s, i, h, b);
    var pop := Pops(setup, i.driver, s.readers[b], b);
    var reader := NextReader(setup, s.memory, s.rings[b], s.readers[b], i.driver, b);
    var returned := Record(setup, s, i, h).returned[b];
    NextBuffer(setup, s, i, h, b);
    match i.hw
    case Quiet =>
    case Store(_) => StoreStep(setup, s, i, h, b, pop, ring, reader, returned, count);
    case Decide(_, _) => DecideStep(setup, s, i, h, b, ring, reader, returned);
    case Push =>
      PushFinds(setup, s, i, h);
      if b == s.select {
        PushStep(setup, s, i, h, b, pop, ring, reader, returned, count);
      }
  }

  /** The job is for the selected buffer's head slot, and its packet is the last one admitted there. */
  lemma JobStep(setup: Setup, s: System, i: Input, h: History)
    requires setup.Valid() && Inv(setup, s, h) && Legal(setup, s, i) && OnTime(s, i)
    ensures Fit(Record(setup, s, i, h).admitted) && JobInv(setup, Next(setup, s, i), Record(setup, s, i, h))
  {
    if Admits(setup, i) {
      var b := M.HardwareBuffer(setup.min, i.hw.packet.destPort);
      AdmittedBuffer(setup, i, b);
      ForPortAppend(h.admitted, i.hw.packet, setup.min + b);
    }
  }

  lemma InvStep(setup: Setup, s: System, i: Input, h: History)
    requires setup.Valid() && Inv(setup, s, h) && Legal(setup, s, i) && OnTime(s, i) && Roomy(setup, s, i)
    ensures Inv(setup, Next(setup, s, i), Record(setup, s, i, h))
  {
    JobStep(setup, s, i, h);
    BufferStep(setup, s, i, h, 0);
    forall b | 0 <= b < PORTS
      ensures BufferOk(setup, Next(setup, s, i), Record(setup, s, i, h), b)
    {
      BufferStep(setup, s, i, h, b);
    }
  }

  lemma InvInit(setup: Setup, s: System)
    requires Reset(setup, s)
    ensures Inv(setup, s, Empty())
  {
    forall b | 0 <= b < PORTS
      ensures BufferOk(setup, s, Empty(), b)
    {
    }
  }

  // ---------------------------------------------------------------------------------------------
  // Runs
  // ---------------------------------------------------------------------------------------------

  lemma NextShape(setup: Setup, s: System, i: Input)
    requires Shape(setup, s) && Legal(setup, s, i)
    ensures Shape(setup, Next(setup, s, i))
  {
  }

  ghost function Run(setup: Setup, start: System, inputs: seq<Input>): (r: (System, History))
    requires Shape(setup, start) && LegalRun(setup, start, inputs)
    ensures Shape(setup, r.0) && |r.1.returned| == PORTS
    decreases |inputs|, 1
  {
    if inputs == [] then (start, Empty())
    else
      var (s, h) := Run(setup, start, inputs[..|inputs| - 1]);
      var i := inputs[|inputs| - 1];
      NextShape(setup, s, i);
      (Next(setup, s, i), Record(setup, s, i, h))
  }

  /** What filter, engine and callers guarantee holds in every cycle. */
  ghost predicate LegalRun(setup: Setup, start: System, inputs: seq<Input>)
    requires Shape(setup, start)
    decreases |inputs|, 0
  {
    inputs == [] ||
    (&& LegalRun(setup, start, inputs[..|inputs| - 1])
     && Legal(setup, Run(setup, start, inputs[..|inputs| - 1]).0, inputs[|inputs| - 1]))
  }

  /** In every cycle decisions are on time and the buffer being stored to has room. */
  ghost predicate Unhurried(setup: Setup, start: System, inputs: seq<Input>)
    requires Shape(setup, start) && LegalRun(setup, start, inputs)
  {
    inputs == [] ||
    (&& Unhurried(setup, start, inputs[..|inputs| - 1])
     && OnTime(Run(setup, start, inputs[..|inputs| - 1]).0, inputs[|inputs| - 1])
     && Roomy(setup, Run(setup, start, inputs[..|inputs| - 1]).0, inputs[|inputs| - 1]))
  }

  lemma {:induction false} RunKeepsInv(setup: Setup, start: System, inputs: seq<Input>)
    requires setup.Valid() && Reset(setup, start) && LegalRun(setup, start, inputs) && Unhurried(setup, start, inputs)
    ensures Inv(setup, Run(setup, start, inputs).0, Run(setup, start, inputs).1)
  {
    if inputs == [] {
      InvInit(setup, start);
    } else {
      var n := |inputs| - 1;
      RunKeepsInv(setup, start, inputs[..n]);
      var (s, h) := Run(setup, start, inputs[..n]);
      InvStep(setup, s, inputs[n], h);
    }
  }

  /** What was returned of a buffer's packets; the rest is in its slots, but for one being stored. */
  ghost predicate IsFifo(ring: C.Registers, returned: seq<Packet>, admitted: seq<Packet>, storing: bool) {
    && |returned| <= |admitted|
    && (forall k :: 0 <= k < |returned| ==> Same(returned[k], admitted[k]))
    && C.Tracks(SLOTS, ring, |admitted| - |returned| - Count(storing))
  }

  /** The same for a port of the range and the buffer the driver takes for its. */
  ghost predicate PortIsFifo(setup: Setup, s: System, h: History, port: M.Port)
    requires Shape(setup, s) && |h.returned| == PORTS
  {
    var b := M.DriverBuffer(setup.min, port);
    0 <= b < PORTS && IsFifo(s.rings[b], h.returned[b], ForPort(h.admitted, port), Storing(s, b))
  }

  lemma InvIsFifo(setup: Setup, s: System, h: History, port: M.Port)
    requires setup.Valid() && Inv(setup, s, h) && M.InRange(setup.min, setup.max, port)
    ensures PortIsFifo(setup, s, h, port)
  {
    M.BuffersAgree(setup.min, setup.max, port);
    assert BufferOk(setup, s, h, M.DriverBuffer(setup.min, port));
  }

  /**
   The receive path is an exactly-once FIFO for every port: whatever the interleaving of filter, engine and
   the receive routines of all ports, what the routine has returned for a port are the first packets the
   filter admitted for it, in order; and those it has not returned are counted by the buffer's registers,
   but for the one being stored.
   */
  lemma ReceiveIsFifo(setup: Setup, start: System, inputs: seq<Input>, port: M.Port)
    requires setup.Valid() && Reset(setup, start) && LegalRun(setup, start, inputs) && Unhurried(setup, start, inputs)
    requires M.InRange(setup.min, setup.max, port)
    ensures PortIsFifo(setup, Run(setup, start, inputs).0, Run(setup, start, inputs).1, port)
  {
    RunKeepsInv(setup, start, inputs);
    InvIsFifo(setup, Run(setup, start, inputs).0, Run(setup, start, inputs).1, port);
  }

  /** A packet that fits its slot is returned whole. */
  lemma SameIfItFits(got: Packet, sent: Packet)
    requires Same(got, sent) && |sent.payload| <= MAX_PAYLOAD
    ensures got == sent
  {
    assert got.payload == got.payload[..|sent.payload|] && sent.payload == sent.payload[..|sent.payload|];
  }

  // ---------------------------------------------------------------------------------------------
  // When decisions come early, or the buffer has no room
  // ---------------------------------------------------------------------------------------------

  /** The registers of every buffer count the packets admitted to it and not yet returned or being stored. */
  ghost predicate Counted(setup: Setup, s: System, h: History)
    requires Shape(setup, s) && |h.returned| == PORTS
  {
    forall b :: 0 <= b < PORTS ==> C.Tracks(SLOTS, s.rings[b], InBuffer(setup, s, h, b))
  }

  function InBuffer(setup: Setup, s: System, h: History, b: nat): (n: int)
    requires b < |h.returned|
  {
    |ForPort(h.admitted, setup.min + b)| - |h.returned[b]| - Count(Storing(s, b))
  }

  lemma CountIsUnique(r: C.Registers, m: int, n: int)
    requires C.Tracks(SLOTS, r, m) && C.Tracks(SLOTS, r, n)
    ensures m == n
  {
  }

  /** What a push does to the number of packets of a buffer. */
  lemma PushCounts(setup: Setup, s: System, i: Input, h: History, b: nat)
    requires Shape(setup, s) && |h.returned| == PORTS && b < PORTS && |s.jobs| == 1 && i.hw.Push? && Legal(setup, s, i)
    ensures var s', h' := Next(setup, s, i), Record(setup, s, i, h);
            && s'.rings[b] == C.Next(SLOTS, s.rings[b], s.select == b, Pops(setup, i.driver, s.readers[b], b))
            && InBuffer(setup, s', h', b)
               == InBuffer(setup, s, h, b) + Count(Storing(s, b)) - Count(Pops(setup, i.driver, s.readers[b], b))
  {
    NextReturned(setup, s, i, h, b);
  }

  lemma BufferIsCountedIff(setup: Setup, s: System, i: Input, h: History, select: nat, b: nat)
    requires Inv(setup, s, h) && |s.jobs| == 1 && i.hw.Push? && Legal(setup, s, i) && b < PORTS
    ensures var t := s.(select := select);
            var t', h' := Next(setup, t, i), Record(setup, t, i, h);
            var pop := Pops(setup, i.driver, s.readers[b], b);
            && Shape(setup, t')
            && (C.Tracks(SLOTS, t'.rings[b], InBuffer(setup, t', h', b)) <==>
                  (select == b <==> Storing(s, b)) && (select == b ==> !s.rings[b].full || pop))
  {
    var t := s.(select := select);
    var push, pop := select == b, Pops(setup, i.driver, s.readers[b], b);
    var n := InBuffer(setup, s, h, b);
    assert BufferOk(setup, s, h, b);
    PushCounts(setup, t, i, h, b);
    C.CountFollowsIff(SLOTS, s.rings[b], n, push, pop);
    var ring := C.Next(SLOTS, s.rings[b], push, pop);
    if push && !pop && s.rings[b].full {
      C.OverrunForgets(SLOTS, s.rings[b]);
    } else if C.Tracks(SLOTS, ring, n + Count(Storing(s, b)) - Count(pop)) {
      CountIsUnique(ring, n + Count(push) - Count(pop), n + Count(Storing(s, b)) - Count(pop));
    }
  }

  /**
   The push goes wherever buffer_select_idx points. Whatever that has become since the packet was decided
   on: the registers count right after a push exactly when it still selects the packet's buffer, and that
   is not full or popped in the same cycle.
   */
  lemma PushIsCountedIff(setup: Setup, s: System, i: Input, h: History, select: nat)
    requires Inv(setup, s, h) && |s.jobs| == 1 && i.hw.Push? && Legal(setup, s, i) && select < PORTS
    ensures var t := s.(select := select);
            Shape(setup, Next(setup, t, i))
            && (Counted(setup, Next(setup, t, i), Record(setup, t, i, h)) <==>
                  && select == s.jobs[0].buffer
                  && (!s.rings[select].full || Pops(setup, i.driver, s.readers[select], select)))
  {
    var t := s.(select := select);
    var t', h' := Next(setup, t, i), Record(setup, t, i, h);
    forall b | 0 <= b < PORTS
      ensures C.Tracks(SLOTS, t'.rings[b], InBuffer(setup, t', h', b)) <==>
                (select == b <==> Storing(s, b))
                && (select == b ==> !s.rings[b].full || Pops(setup, i.driver, s.readers[b], b))
    {
      BufferIsCountedIff(setup, s, i, h, select, b);
    }
    BufferIsCountedIff(setup, s, i, h, select, select);
  }

  /** A cycle in which only the hardware does something. */
  function Only(hw: Hardware): Input { Input(hw, Away) }

  /**
   A decision on any packet for another buffer, be it to discard it, that comes before wlast of the packet
   before: that packet never shows in its buffer, and the other buffer shows one that nobody sent.
   */
  lemma EarlyDecisionMisfiles(setup: Setup, start: System, p: Packet, q: Packet, open: seq<bool>)
    requires setup.Valid() && Reset(setup, start)
    requires InRange(p) && InRange(q) && Admits(setup, Only(Decide(open, p)))
    requires var b := p.destPort - setup.min;
             && b != M.HardwareBuffer(setup.min, q.destPort)
             && 0 <= b < PORTS && Holds(SlotBytes(setup, start.memory, b, 0), p)
    ensures var s1 := Next(setup, start, Only(Decide(open, p)));
            && Shape(setup, s1) && OnTime(start, Only(Decide(open, p))) && Legal(setup, s1, Only(Decide(open, q)))
            && var s2 := Next(setup, s1, Only(Decide(open, q)));
               && Shape(setup, s2) && Legal(setup, s2, Only(Push))
               && var s3 := Next(setup, s2, Only(Push));
                  && s3.rings[p.destPort - setup.min] == C.RESET
                  && C.Tracks(SLOTS, s3.rings[M.HardwareBuffer(setup.min, q.destPort)], 1)
  {
    var b := p.destPort - setup.min;
    AdmittedBuffer(setup, Only(Decide(open, p)), b);
    SameAddress(setup, b, 0);
    var s1 := Next(setup, start, Only(Decide(open, p)));
    var s2 := Next(setup, s1, Only(Decide(open, q)));
    assert s1.jobs == [Job(b, 0, p)] && s2.jobs[0] == Job(b, 0, p);
    assert s2.rings[M.HardwareBuffer(setup.min, q.destPort)] == C.RESET;
  }
}
