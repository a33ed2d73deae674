/**
 The transmit path at cycle level: the send routine of the driver, the register file and its pulse,
 the ring control, the read-DMA control of the controller, the read engine itself, and a slave that
 may fetch the words of an issued burst at any time before it hands them over.
 */
module TransmitPath {
  import opened Arithmetic
  import opened Layout
  import opened Options
  import opened Stream
  import opened AxiResponse
  import opened BurstPlan
  import opened OutputFifo
  import opened EdgePulse
  import F = RegisterFile
  import C = CircularBuffer
  import D = ReadDma
  import Memory

  const WORDS := 256

  /** The driver between and inside calls of the send routine. */
  datatype Driver =
    | Ready
    | ReadFull(image: seq<Byte>)
    | ReadHead(image: seq<Byte>)
    | Copy(image: seq<Byte>, slot: nat, copied: nat)
    | Push(image: seq<Byte>, slot: nat, stage: nat)

  /** The registers of the read-DMA control. */
  datatype Control = Control(locked: bool, valid: bool, slotAddr: nat)

  /** `memory` is the transmit buffer, `fetched` the words the slave has fetched, in request order. */
  datatype System = System(
    driver: Driver,
    regs: F.Registers,
    pulse: Detector,
    ring: C.Registers,
    control: Control,
    dma: D.Engine,
    memory: seq<Byte>,
    fetched: seq<seq<Byte>>)

  /** One cycle: a packet to send, progress of bus and copy, and the slave's and the stream consumer's choices. */
  datatype Input = Input(
    send: Option<seq<Byte>>,
    go: bool,
    copy: nat,
    fetch: bool,
    arready: bool,
    rvalid: bool,
    resp: Resp,
    tready: bool)

  /** Packets fit a slot; the send routine does not check that. */
  ghost predicate LegalInput(i: Input) { i.send.Some? ==> |i.send.value| <= SLOT }

  function SlotBytes(memory: seq<Byte>, slot: nat): (bytes: seq<Byte>)
    requires |memory| == BUFFER && slot < SLOTS
    ensures |bytes| == SLOT
  {
    memory[SLOT * slot..SLOT * slot + SLOT]
  }

  // ---------------------------------------------------------------------------------------------
  // The driver
  // ---------------------------------------------------------------------------------------------

  ghost predicate ValidDriver(d: Driver) {
    match d
    case Ready => true
    case ReadFull(image) => |image| <= SLOT
    case ReadHead(image) => |image| <= SLOT
    case Copy(image, slot, copied) => |image| <= SLOT && slot < SLOTS && copied <= |image|
    case Push(image, slot, stage) => |image| <= SLOT && slot < SLOTS && stage < 3
  }

  /** The three writes to the pushed register: 0, 1, 0. */
  function Outstanding(stage: nat): F.Access { F.Access(F.ADDR_BUFTX_PUSHED, F.BitWord(stage == 1)) }

  function NextDriver(d: Driver, ring: C.Registers, regs: F.Registers, i: Input): Driver {
    match d
    case Ready => if i.send.Some? then ReadFull(i.send.value) else Ready
    case ReadFull(image) => if !i.go then d else if ring.full then Ready else ReadHead(image)
    case ReadHead(image) => if !i.go then d else Copy(image, ring.head, 0)
    case Copy(image, slot, copied) =>
      if copied == |image| then Push(image, slot, 0)
      else Copy(image, slot, if copied + i.copy <= |image| then copied + i.copy else |image|)
    case Push(image, slot, stage) =>
      if !F.Responds(regs, i.go) then d else if stage < 2 then Push(image, slot, stage + 1) else Ready
  }

  /** The copy writes the next bytes of the image into its slot. */
  function NextMemory(d: Driver, memory: seq<Byte>, i: Input): (m: seq<Byte>)
    requires |memory| == BUFFER && ValidDriver(d)
    ensures |m| == BUFFER
  {
    if d.Copy? then
      var upTo := if d.copied + i.copy <= |d.image| then d.copied + i.copy else |d.image|;
      var from := SLOT * d.slot + d.copied;
      memory[..from] + d.image[d.copied..upTo] + memory[SLOT * d.slot + upTo..]
    else memory
  }

  /** The cycle in which the write of a one takes effect; from here on the packet counts as accepted. */
  predicate Accepts(s: System, i: Input) {
    s.driver.Push? && s.driver.stage == 1 && F.Lands(s.regs, i.go)
  }

  // ---------------------------------------------------------------------------------------------
  // The hardware
  // ---------------------------------------------------------------------------------------------

  /** What the read engine sees in this cycle. */
  function DmaInput(s: System, i: Input, received: nat): D.Input {
    D.Input(true, s.control.valid, D.Descriptor(s.control.slotAddr, SLOT, 0), i.arready,
            i.rvalid && received < |s.fetched|,
            D.ReadBeat(if received < |s.fetched| then s.fetched[received] else [], i.resp), i.tready)
  }

  /** The stream handshake of a last beat unlocks, the descriptor handshake locks. */
  predicate Unlocks(s: System, i: Input) { s.dma.out.valid && i.tready && s.dma.out.reg.last }

  predicate Locks(s: System) { s.control.valid && s.dma.a.descReady }

  function NextControl(base: nat, s: System, i: Input): Control {
    Control(
      if Unlocks(s, i) then false else if Locks(s) then true else s.control.locked,
      if s.control.locked then false else if !s.ring.empty then true else s.control.valid,
      base + s.ring.tail * SLOT)
  }

  /** History: the engine's, the slots accepted and the images behind them, pulses and pops seen by the ring. */
  datatype History = History(dma: D.History, accepted: seq<seq<Byte>>, images: seq<seq<Byte>>, pushes: nat, pops: nat)

  /** rlast & rvalid & rready: the slave marks the last beat of each burst. */
  predicate Pops(s: System, i: Input, h: History)
    requires forall b <- h.dma.bursts :: 0 < b.bytes
  {
    var k := |h.dma.received|;
    && s.dma.d.rready && i.rvalid && k < |s.fetched|
    && k < |LastFlags(AXI64, h.dma.bursts)| && LastFlags(AXI64, h.dma.bursts)[k]
  }

  /** The slave fetches the word of the next requested beat. */
  function NextFetched(base: nat, s: System, i: Input, h: History): (f: seq<seq<Byte>>)
    requires forall b <- h.dma.bursts :: 0 < b.bytes
  {
    var addrs := SlaveAddresses(AXI64, h.dma.bursts);
    var k := |s.fetched|;
    if i.fetch && k < |addrs| && base <= addrs[k] && addrs[k] + 8 <= base + |s.memory| then
      s.fetched + [s.memory[addrs[k] - base..addrs[k] - base + 8]]
    else
      s.fetched
  }

  ghost predicate ValidSystem(s: System, h: History) {
    && |s.memory| == BUFFER && ValidDriver(s.driver) && s.regs.Valid()
    && s.dma.out.ring.Valid() && (s.dma.a.starting ==> 0 < s.dma.a.opCount)
    && (forall b <- h.dma.bursts :: 0 < b.bytes)
  }

  function Next(base: nat, s: System, i: Input, h: History): System
    requires ValidSystem(s, h)
  {
    var bus := if s.driver.Push? then F.Drive(s.regs, Outstanding(s.driver.stage), i.go) else F.Quiet();
    System(
      NextDriver(s.driver, s.ring, s.regs, i),
      F.Next(s.regs, bus, false),
      s.pulse.Next(s.regs.txPushed),
      C.Next(SLOTS, s.ring, s.pulse.Pulse(), Pops(s, i, h)),
      NextControl(base, s, i),
      D.Next(AXI64, s.dma, DmaInput(s, i, |h.dma.received|)),
      NextMemory(s.driver, s.memory, i),
      NextFetched(base, s, i, h))
  }

  function Record(s: System, i: Input, h: History): History
    requires ValidSystem(s, h)
  {
    History(
      D.Record(AXI64, s.dma, DmaInput(s, i, |h.dma.received|), h.dma),
      if Accepts(s, i) then h.accepted + [SlotBytes(s.memory, s.driver.slot)] else h.accepted,
      if Accepts(s, i) then h.images + [s.driver.image] else h.images,
      h.pushes + Count(s.pulse.Pulse()),
      h.pops + Count(Pops(s, i, h)))
  }

  ghost predicate Reset(s: System) {
    && s.driver.Ready? && s.regs.Valid() && s.regs.wstate.WrIdle? && !s.regs.txPushed
    && s.pulse == CLEAR && s.ring == C.RESET
    && !s.control.locked && !s.control.valid
    && D.Reset(AXI64, s.dma) && |s.memory| == BUFFER && s.fetched == []
  }

  const EMPTY := History(D.EMPTY, [], [], 0, 0)

  // ---------------------------------------------------------------------------------------------
  // The invariant
  // ---------------------------------------------------------------------------------------------

  /** The write of a one has taken effect and the send routine is still running. */
  predicate Landed(d: Driver, w: F.WriteState) {
    d.Push? && (d.stage == 2 || (d.stage == 1 && w.WrResp?))
  }

  predicate High(d: Driver, w: F.WriteState) { Landed(d, w) && !(d.stage == 2 && w.WrResp?) }

  ghost predicate BusInv(d: Driver, r: F.Registers) {
    && ValidDriver(d) && r.Valid()
    && (!d.Push? ==> r.wstate.WrIdle?)
    && (!r.wstate.WrIdle? ==> r.waddr == F.ADDR_BUFTX_PUSHED)
    && r.txPushed == High(d, r.wstate)
  }

  /** Every accepted packet is pushed once; the pulse comes before the routine returns. */
  ghost predicate PulseInv(d: Driver, r: F.Registers, p: Detector, accepted: nat, pushes: nat) {
    && accepted == pushes + Count(p.Pending(r.txPushed))
    && (!r.txPushed ==> !p.Pending(false))
    && (r.txPushed && d.Push? && d.stage == 2 ==> p.reg1 && (r.wstate.WrData? ==> p.reg2))
  }

  ghost predicate RingInv(ring: C.Registers, accepted: nat, pushes: nat, pops: nat) {
    && C.Tracks(SLOTS, ring, pushes - pops)
    && ring.head == pushes % SLOTS && ring.tail == pops % SLOTS
    && accepted <= pops + SLOTS
  }

  /** The driver writes only to the slot behind the newest accepted packet, and only when it is free. */
  ghost predicate DriverInv(d: Driver, w: F.WriteState, memory: seq<Byte>, accepted: nat, pushes: nat, pops: nat)
    requires |memory| == BUFFER && ValidDriver(d)
  {
    && (d.ReadHead? ==> accepted < pops + SLOTS)
    && ((d.Copy? || (d.Push? && !Landed(d, w))) ==>
          && accepted < pops + SLOTS
          && d.slot == accepted % SLOTS
          && var n := if d.Copy? then d.copied else |d.image|;
             SlotBytes(memory, d.slot)[..n] == d.image[..n])
  }

  /** Accepted slots keep their contents until they are popped. */
  ghost predicate MemoryInv(memory: seq<Byte>, accepted: seq<seq<Byte>>, images: seq<seq<Byte>>, pops: nat)
    requires |memory| == BUFFER
  {
    && |images| == |accepted|
    && (forall j :: 0 <= j < |accepted| ==> |accepted[j]| == SLOT && |images[j]| <= SLOT && images[j] <= accepted[j])
    && (forall j :: pops <= j < |accepted| ==> SlotBytes(memory, j % SLOTS) == accepted[j])
  }

  /** The word of a slot at a beat position. */
  function Word(slot: seq<Byte>, k: nat): (w: seq<Byte>)
    requires |slot| == SLOT && k < WORDS
    ensures |w| == 8
  {
    slot[8 * k..8 * k + 8]
  }

  /** The n-th descriptor names the n-th slot. */
  ghost predicate SlotOps(base: nat, ops: seq<D.Descriptor>) {
    forall n :: 0 <= n < |ops| ==> ops[n] == D.Descriptor(base + (n % SLOTS) * SLOT, SLOT, 0)
  }

  /** What was fetched is, word by word, what was accepted. */
  ghost predicate FetchInv(fetched: seq<seq<Byte>>, received: seq<D.ReadBeat>, accepted: seq<seq<Byte>>, bursts: nat)
    requires forall j :: 0 <= j < |accepted| ==> |accepted[j]| == SLOT
  {
    && |received| <= |fetched| <= WORDS * bursts
    && bursts <= |accepted|
    && (forall k :: 0 <= k < |fetched| ==> fetched[k] == Word(accepted[k / WORDS], k % WORDS))
    && (forall k :: 0 <= k < |received| ==> received[k].data == fetched[k])
  }

  /** The lock spans exactly the time from descriptor handshake to the last beat's departure. */
  ghost predicate ControlInv(base: nat, c: Control, descReady: bool, ops: nat, received: nat, delivered: nat,
                             pushes: nat, pops: nat) {
    && pops == received / WORDS
    && ops <= pushes
    && delivered <= received <= WORDS * ops
    && WORDS * ops - WORDS <= delivered
    && (c.locked <==> delivered < WORDS * ops)
    && (c.valid ==> c.slotAddr <= base + BUFFER - SLOT)
    && (c.valid && c.locked ==> !descReady)
    && (c.valid && !c.locked ==> ops < pushes && c.slotAddr == base + (ops % SLOTS) * SLOT)
  }

  ghost predicate Inv(base: nat, s: System, h: History) {
    && D.Inv(AXI64, s.dma, h.dma)
    && BusInv(s.driver, s.regs)
    && PulseInv(s.driver, s.regs, s.pulse, |h.accepted|, h.pushes)
    && RingInv(s.ring, |h.accepted|, h.pushes, h.pops)
    && |s.memory| == BUFFER
    && DriverInv(s.driver, s.regs.wstate, s.memory, |h.accepted|, h.pushes, h.pops)
    && MemoryInv(s.memory, h.accepted, h.images, h.pops)
    && SlotOps(base, h.dma.ops)
    && FetchInv(s.fetched, h.dma.received, h.accepted, |h.dma.bursts|)
    && ControlInv(base, s.control, s.dma.a.descReady, |h.dma.ops|, |h.dma.received|, h.dma.delivered, h.pushes, h.pops)
  }

  // ---------------------------------------------------------------------------------------------
  // The driver's side of a step
  // ---------------------------------------------------------------------------------------------

  lemma BusStep(s: System, i: Input, h: History, base: nat)
    requires ValidSystem(s, h) && BusInv(s.driver, s.regs) && LegalInput(i) && s.ring.head < SLOTS
    ensures var s' := Next(base, s, i, h);
            && BusInv(s'.driver, s'.regs)
            && s'.regs.wstate == (if !s.driver.Push? || !i.go then s.regs.wstate
                                  else if s.regs.wstate.WrIdle? then F.WrData
                                  else if s.regs.wstate.WrData? then F.WrResp else F.WrIdle)
  {
  }

  lemma PulseStep(s: System, i: Input, h: History, base: nat)
    requires ValidSystem(s, h) && BusInv(s.driver, s.regs) && LegalInput(i) && s.ring.head < SLOTS
    requires PulseInv(s.driver, s.regs, s.pulse, |h.accepted|, h.pushes)
    ensures var s', h' := Next(base, s, i, h), Record(s, i, h);
            PulseInv(s'.driver, s'.regs, s'.pulse, |h'.accepted|, h'.pushes)
  {
    BusStep(s, i, h, base);
  }

  // ---------------------------------------------------------------------------------------------
  // What the read engine guarantees when every descriptor is one slot
  // ---------------------------------------------------------------------------------------------

  ghost predicate Base(base: nat) { base % SLOT == 0 && base + BUFFER <= AXI64.space }

  lemma SlotFrame(k: nat)
    requires k < WORDS
    ensures AXI64.Beats(SLOT) == WORDS
    ensures D.FrameMarks(AXI64, SLOT)[k] == D.Mark(Mask(8, 8), k == WORDS - 1)
  {
  }

  lemma {:induction false} SlotMarks(base: nat, ops: seq<D.Descriptor>)
    requires SlotOps(base, ops)
    ensures D.LegalOps(ops) && |D.Marks(AXI64, ops)| == WORDS * |ops|
    ensures forall k :: 0 <= k < WORDS * |ops| ==>
              D.Marks(AXI64, ops)[k] == D.Mark(Mask(8, 8), k % WORDS == WORDS - 1)
  {
    if ops != [] {
      var n := |ops| - 1;
      SlotMarks(base, ops[..n]);
      assert |D.FrameMarks(AXI64, SLOT)| == WORDS by { SlotFrame(0); }
      forall k | WORDS * n <= k < WORDS * |ops|
        ensures D.Marks(AXI64, ops)[k] == D.Mark(Mask(8, 8), k % WORDS == WORDS - 1)
      {
        SlotFrame(k - WORDS * n);
        assert k % WORDS == k - WORDS * n;
      }
    }
  }

  ghost predicate SlotBursts(base: nat, bursts: seq<Burst>) {
    forall n :: 0 <= n < |bursts| ==> bursts[n] == Burst(base + (n % SLOTS) * SLOT, SLOT)
  }

  lemma SlotPlan(addr: nat)
    requires addr % SLOT == 0
    ensures Plan(AXI64, Memory.Aligned(AXI64, addr), SLOT) == [Burst(addr, SLOT)]
  {
    assert Memory.Aligned(AXI64, addr) == addr;
    SlotIsOneBurst(addr, SLOT);
  }

  lemma SlotAddressIsAligned(base: nat, n: nat)
    requires base % SLOT == 0
    ensures (base + (n % SLOTS) * SLOT) % SLOT == 0
  {
  }

  lemma {:induction false} SlotPlans(base: nat, ops: seq<D.Descriptor>)
    requires SlotOps(base, ops) && base % SLOT == 0
    ensures |D.Plans(AXI64, ops)| == |ops| && SlotBursts(base, D.Plans(AXI64, ops))
  {
    if ops != [] {
      var n := |ops| - 1;
      SlotPlans(base, ops[..n]);
      SlotAddressIsAligned(base, n);
      SlotPlan(ops[n].addr);
      assert D.Plans(AXI64, ops) == D.Plans(AXI64, ops[..n]) + [Burst(ops[n].addr, SLOT)];
    }
  }

  lemma {:induction false} SlotAddresses(base: nat, bursts: seq<Burst>)
    requires SlotBursts(base, bursts)
    ensures |SlaveAddresses(AXI64, bursts)| == |LastFlags(AXI64, bursts)| == WORDS * |bursts|
    ensures forall k :: 0 <= k < WORDS * |bursts| ==>
              SlaveAddresses(AXI64, bursts)[k] == base + (k / WORDS % SLOTS) * SLOT + 8 * (k % WORDS)
    ensures forall k :: 0 <= k < WORDS * |bursts| ==> LastFlags(AXI64, bursts)[k] == (k % WORDS == WORDS - 1)
  {
    if bursts != [] {
      var n := |bursts| - 1;
      SlotAddresses(base, bursts[..n]);
      var b := bursts[n];
      forall k | WORDS * n <= k < WORDS * |bursts|
        ensures SlaveAddresses(AXI64, bursts)[k] == base + (k / WORDS % SLOTS) * SLOT + 8 * (k % WORDS)
        ensures LastFlags(AXI64, bursts)[k] == (k % WORDS == WORDS - 1)
      {
        assert k / WORDS == n && k % WORDS == k - WORDS * n;
        assert SlaveAddresses(AXI64, bursts)[k] == BeatAddresses(AXI64, b)[k - WORDS * n];
        assert LastFlags(AXI64, bursts)[k] == EndFlags(WORDS)[k - WORDS * n];
      }
    }
  }

  lemma EngineMarks(base: nat, e: D.Engine, h: D.History)
    requires D.DataInv(AXI64, e.d, e.a.cmd, e.a.cmdValid, h) && SlotOps(base, h.ops)
    ensures D.MarksOf(h.pushed) <= D.Marks(AXI64, h.ops)
    ensures |h.pushed| <= WORDS * |h.ops|
    ensures e.d.rready ==> |h.pushed| < WORDS * |h.ops|
  {
    var n := D.Finished(e.d, e.a.cmdValid, h);
    var j := if e.d.reading then D.Position(AXI64, e.d, h.ops[n]) else 0;
    D.FramedIsPrefix(AXI64, h.ops, n, j, D.MarksOf(h.pushed));
    D.FramedLength(AXI64, h.ops, n, j, D.MarksOf(h.pushed));
    SlotMarks(base, h.ops[..n]);
    SlotMarks(base, h.ops);
    if e.d.reading {
      assert AXI64.Beats(h.ops[n].len) == WORDS;
    }
  }

  lemma EngineBeats(base: nat, h: D.History)
    requires D.Carried(AXI64, h.received, h.pushed) && SlotOps(base, h.ops) && D.LegalOps(h.ops)
    requires D.MarksOf(h.pushed) <= D.Marks(AXI64, h.ops)
    ensures forall k :: 0 <= k < |h.pushed| ==>
              h.pushed[k] == Beat(h.received[k].data, Mask(8, 8), k % WORDS == WORDS - 1)
  {
    SlotMarks(base, h.ops);
    forall k | 0 <= k < |h.pushed|
      ensures h.pushed[k] == Beat(h.received[k].data, Mask(8, 8), k % WORDS == WORDS - 1)
    {
      assert D.MarksOf(h.pushed)[k] == D.Marks(AXI64, h.ops)[k];
    }
  }

  /** The engine's invariant, read for slot descriptors. */
  lemma EngineFacts(base: nat, e: D.Engine, h: D.History)
    requires D.Inv(AXI64, e, h) && SlotOps(base, h.ops) && base % SLOT == 0
    ensures |h.pushed| == |h.received| <= WORDS * |h.ops|
    ensures e.d.rready ==> |h.received| < WORDS * |h.ops|
    ensures h.delivered <= |h.pushed|
    ensures e.out.valid ==> h.delivered < |h.pushed| && e.out.reg == h.pushed[h.delivered]
    ensures forall k :: 0 <= k < |h.pushed| ==>
              h.pushed[k] == Beat(h.received[k].data, Mask(8, 8), k % WORDS == WORDS - 1)
    ensures SlotBursts(base, h.bursts) && |h.bursts| <= |h.ops|
  {
    EngineMarks(base, e, h);
    EngineBeats(base, h);
    SlotPlans(base, h.ops);
    var plans := D.Plans(AXI64, h.ops);
    assert h.bursts == plans[..|h.bursts|];
  }

  lemma OutputBeat(base: nat, e: D.Engine, h: D.History)
    requires D.Inv(AXI64, e, h) && SlotOps(base, h.ops) && base % SLOT == 0
    ensures e.out.valid ==> |e.out.reg.data| == |e.out.reg.keep| == 8
  {
    EngineFacts(base, e, h);
  }

  // ---------------------------------------------------------------------------------------------
  // The hardware's side of a step
  // ---------------------------------------------------------------------------------------------

  /** The engine is only ever offered legal descriptors and whole words. */
  lemma DmaInputIsLegal(base: nat, s: System, i: Input, h: History)
    requires Base(base) && Inv(base, s, h)
    ensures D.LegalInput(AXI64, DmaInput(s, i, |h.dma.received|))
  {
    var k := |h.dma.received|;
    if k < |s.fetched| {
      assert s.fetched[k] == Word(h.accepted[k / WORDS], k % WORDS);
    }
  }

  /** A beat leaves the engine in stream order. */
  lemma DeliverStep(base: nat, s: System, i: Input, h: History)
    requires ValidSystem(s, h) && s.dma.out.Represents(h.dma.pushed, h.dma.delivered)
    ensures var p, p' := h.dma, Record(s, i, h).dma;
            && p.delivered <= |p.pushed| && p'.delivered <= |p'.pushed|
            && p'.pushed[..p'.delivered]
               == p.pushed[..p.delivered] + if s.dma.out.valid && i.tready then [s.dma.out.reg] else []
  {
  }

  lemma DmaStep(base: nat, s: System, i: Input, h: History)
    requires Base(base) && Inv(base, s, h) && ValidSystem(s, h)
    ensures D.Inv(AXI64, Next(base, s, i, h).dma, Record(s, i, h).dma)
  {
    DmaInputIsLegal(base, s, i, h);
    D.InvStep(AXI64, s.dma, DmaInput(s, i, |h.dma.received|), h.dma);
  }

  /** The slave hands over a word. */
  predicate Receives(s: System, i: Input, received: nat) {
    s.dma.d.rready && i.rvalid && received < |s.fetched|
  }

  /** A pop is the receipt of the last word of a slot. */
  lemma PopIsLastWord(base: nat, s: System, i: Input, h: History)
    requires Base(base) && Inv(base, s, h) && ValidSystem(s, h)
    ensures var k := |h.dma.received|;
            Pops(s, i, h) <==> Receives(s, i, k) && k % WORDS == WORDS - 1
  {
    EngineFacts(base, s.dma, h.dma);
    SlotAddresses(base, h.dma.bursts);
  }

  lemma RingNumbers(ring: C.Registers, accepted: nat, accepted': nat, pushes: nat, pops: nat, push: bool, pop: bool)
    requires RingInv(ring, accepted, pushes, pops)
    requires (push ==> pushes < accepted) && (pop ==> pops < pushes)
    requires accepted' <= pops + SLOTS
    ensures RingInv(C.Next(SLOTS, ring, push, pop), accepted', pushes + Count(push), pops + Count(pop))
  {
    C.CountFollowsIff(SLOTS, ring, pushes - pops, push, pop);
    assert C.Increment(SLOTS, pushes % SLOTS) == (pushes + 1) % SLOTS;
    assert C.Increment(SLOTS, pops % SLOTS) == (pops + 1) % SLOTS;
  }

  lemma PopIsDue(base: nat, s: System, i: Input, h: History)
    requires Base(base) && Inv(base, s, h) && ValidSystem(s, h) && Pops(s, i, h)
    ensures h.pops < |h.dma.ops| <= h.pushes
  {
    PopIsLastWord(base, s, i, h);
    EngineFacts(base, s.dma, h.dma);
  }

  /** A push pulse is owed to a packet written earlier, and the driver writes no more than the ring holds. */
  lemma RingPremises(base: nat, s: System, i: Input, h: History)
    requires ValidSystem(s, h)
    requires BusInv(s.driver, s.regs) && PulseInv(s.driver, s.regs, s.pulse, |h.accepted|, h.pushes)
    requires DriverInv(s.driver, s.regs.wstate, s.memory, |h.accepted|, h.pushes, h.pops)
    requires RingInv(s.ring, |h.accepted|, h.pushes, h.pops)
    ensures s.pulse.Pulse() ==> h.pushes < |h.accepted|
    ensures |h.accepted| + Count(Accepts(s, i)) <= h.pops + SLOTS
  {
  }

  /** The counters after a cycle. */
  lemma NextCounters(base: nat, s: System, i: Input, h: History)
    requires ValidSystem(s, h)
    ensures var s', h' := Next(base, s, i, h), Record(s, i, h);
            && s'.ring == C.Next(SLOTS, s.ring, s.pulse.Pulse(), Pops(s, i, h))
            && |h'.accepted| == |h.accepted| + Count(Accepts(s, i))
            && h'.pushes == h.pushes + Count(s.pulse.Pulse()) && h'.pops == h.pops + Count(Pops(s, i, h))
  {
  }

  lemma RingStep(base: nat, s: System, i: Input, h: History)
    requires ValidSystem(s, h) && (Pops(s, i, h) ==> h.pops < h.pushes)
    requires BusInv(s.driver, s.regs) && PulseInv(s.driver, s.regs, s.pulse, |h.accepted|, h.pushes)
    requires DriverInv(s.driver, s.regs.wstate, s.memory, |h.accepted|, h.pushes, h.pops)
    requires RingInv(s.ring, |h.accepted|, h.pushes, h.pops)
    ensures RingInv(C.Next(SLOTS, s.ring, s.pulse.Pulse(), Pops(s, i, h)), |h.accepted| + Count(Accepts(s, i)),
                    h.pushes + Count(s.pulse.Pulse()), h.pops + Count(Pops(s, i, h)))
  {
    RingPremises(base, s, i, h);
    RingNumbers(s.ring, |h.accepted|, |h.accepted| + Count(Accepts(s, i)), h.pushes, h.pops, s.pulse.Pulse(),
                Pops(s, i, h));
  }

  /** The part of the engine's step that the control logic sees. */
  lemma DmaInterface(base: nat, s: System, i: Input, h: History)
    requires Base(base) && Inv(base, s, h) && ValidSystem(s, h)
    ensures var s', h', k := Next(base, s, i, h), Record(s, i, h), |h.dma.received|;
            && h'.dma.ops == (if Locks(s) then h.dma.ops + [D.Descriptor(s.control.slotAddr, SLOT, 0)] else h.dma.ops)
            && (Locks(s) ==> !s'.dma.a.descReady)
            && h'.dma.received == (if Receives(s, i, k) then h.dma.received + [D.ReadBeat(s.fetched[k], i.resp)]
               else h.dma.received)
            && h'.dma.delivered == h.dma.delivered + (if s.dma.out.valid && i.tready then 1 else 0)
            && h.dma.bursts <= h'.dma.bursts
  {
  }

  /** The control registers against the counters they stand for. */
  lemma ControlNumbers(base: nat, c: Control, c': Control, ready: bool, ready': bool, ring: C.Registers,
                       ops: nat, received: nat, delivered: nat, pushes: nat, pops: nat,
                       receives: bool, departs: bool, last: bool, push: bool)
    requires ControlInv(base, c, ready, ops, received, delivered, pushes, pops)
    requires ring.tail == pops % SLOTS && (ring.empty <==> pops == pushes) && pops <= pushes
    requires (departs ==> delivered < received && last == (delivered % WORDS == WORDS - 1))
    requires receives ==> received < WORDS * ops
    requires c.valid && ready ==> !ready'
    requires c' == Control(
      if departs && last then false else if c.valid && ready then true else c.locked,
      if c.locked then false else if !ring.empty then true else c.valid,
      base + ring.tail * SLOT)
    ensures ControlInv(base, c', ready', ops + Count(c.valid && ready), received + Count(receives),
                       delivered + Count(departs), pushes + Count(push),
                       pops + Count(receives && received % WORDS == WORDS - 1))
  {
  }

  /** A descriptor goes out only while the controller is unlocked, when its address names the next slot. */
  lemma OpsStep(base: nat, c: Control, ready: bool, ops: seq<D.Descriptor>, received: nat, delivered: nat,
                pushes: nat, pops: nat)
    requires SlotOps(base, ops) && ControlInv(base, c, ready, |ops|, received, delivered, pushes, pops)
    requires c.valid && ready
    ensures SlotOps(base, ops + [D.Descriptor(c.slotAddr, SLOT, 0)])
  {
  }

  /** The engine's interface in this step: descriptors, words received, beats delivered. */
  ghost predicate Interface(s: System, i: Input, h: D.History, ready': bool, h': D.History) {
    && h'.ops == (if Locks(s) then h.ops + [D.Descriptor(s.control.slotAddr, SLOT, 0)] else h.ops)
    && (Locks(s) ==> !ready')
    && |h'.received| == |h.received| + Count(Receives(s, i, |h.received|))
    && h'.delivered == h.delivered + Count(s.dma.out.valid && i.tready)
  }

  ghost predicate Outputs(s: System, i: Input, h: D.History) {
    && (s.dma.out.valid ==> h.delivered < |h.received| && s.dma.out.reg.last == (h.delivered % WORDS == WORDS - 1))
    && (Receives(s, i, |h.received|) ==> |h.received| < WORDS * |h.ops|)
  }

  lemma ControlFacts(base: nat, s: System, i: Input, h: History)
    requires Base(base) && Inv(base, s, h) && ValidSystem(s, h)
    ensures Interface(s, i, h.dma, Next(base, s, i, h).dma.a.descReady, Record(s, i, h).dma)
    ensures Outputs(s, i, h.dma)
  {
    DmaInterface(base, s, i, h);
    EngineFacts(base, s.dma, h.dma);
  }

  lemma ControlStep(base: nat, s: System, i: Input, h: History)
    requires ValidSystem(s, h)
    requires Interface(s, i, h.dma, Next(base, s, i, h).dma.a.descReady, Record(s, i, h).dma)
    requires Outputs(s, i, h.dma)
    requires Pops(s, i, h) <==> Receives(s, i, |h.dma.received|) && |h.dma.received| % WORDS == WORDS - 1
    requires RingInv(s.ring, |h.accepted|, h.pushes, h.pops)
    requires ControlInv(base, s.control, s.dma.a.descReady, |h.dma.ops|, |h.dma.received|, h.dma.delivered,
                        h.pushes, h.pops)
    ensures var s', h' := Next(base, s, i, h), Record(s, i, h);
            ControlInv(base, s'.control, s'.dma.a.descReady, |h'.dma.ops|, |h'.dma.received|, h'.dma.delivered,
                       h'.pushes, h'.pops)
  {
    var s' := Next(base, s, i, h);
    ControlNumbers(base, s.control, s'.control, s.dma.a.descReady, s'.dma.a.descReady, s.ring,
                   |h.dma.ops|, |h.dma.received|, h.dma.delivered, h.pushes, h.pops,
                   Receives(s, i, |h.dma.received|), s.dma.out.valid && i.tready, s.dma.out.reg.last, s.pulse.Pulse());
  }

  // ---------------------------------------------------------------------------------------------
  // Memory and the words fetched from it
  // ---------------------------------------------------------------------------------------------

  /** The copy touches no byte outside its slot, and extends the part of the image that is in place. */
  lemma CopyStep(d: Driver, memory: seq<Byte>, i: Input)
    requires |memory| == BUFFER && ValidDriver(d) && d.Copy?
    requires SlotBytes(memory, d.slot)[..d.copied] == d.image[..d.copied]
    ensures var m := NextMemory(d, memory, i);
            var upTo := if d.copied + i.copy <= |d.image| then d.copied + i.copy else |d.image|;
            && (forall t :: 0 <= t < SLOTS && t != d.slot ==> SlotBytes(m, t) == SlotBytes(memory, t))
            && SlotBytes(m, d.slot)[..upTo] == d.image[..upTo]
  {
    var m := NextMemory(d, memory, i);
    var upTo := if d.copied + i.copy <= |d.image| then d.copied + i.copy else |d.image|;
    var at := SLOT * d.slot;
    assert forall x :: 0 <= x < BUFFER && !(at + d.copied <= x < at + upTo) ==> m[x] == memory[x];
    assert forall x :: at + d.copied <= x < at + upTo ==> m[x] == d.image[x - at];
    forall x | 0 <= x < upTo
      ensures SlotBytes(m, d.slot)[x] == d.image[x]
    {
      assert SlotBytes(m, d.slot)[x] == m[at + x];
      if x < d.copied {
        assert SlotBytes(memory, d.slot)[..d.copied][x] == memory[at + x];
        assert d.image[..d.copied][x] == d.image[x];
      }
    }
  }

  lemma DriverStep(base: nat, s: System, i: Input, h: History)
    requires ValidSystem(s, h) && LegalInput(i)
    requires BusInv(s.driver, s.regs) && PulseInv(s.driver, s.regs, s.pulse, |h.accepted|, h.pushes)
    requires DriverInv(s.driver, s.regs.wstate, s.memory, |h.accepted|, h.pushes, h.pops)
    requires RingInv(s.ring, |h.accepted|, h.pushes, h.pops)
    ensures var s', h' := Next(base, s, i, h), Record(s, i, h);
            && |s'.memory| == BUFFER && ValidDriver(s'.driver)
            && DriverInv(s'.driver, s'.regs.wstate, s'.memory, |h'.accepted|, h'.pushes, h'.pops)
  {
    BusStep(s, i, h, base);
    if s.driver.Copy? {
      CopyStep(s.driver, s.memory, i);
    }
  }

  lemma CopyKeepsSlots(d: Driver, memory: seq<Byte>, i: Input, accepted: seq<seq<Byte>>, images: seq<seq<Byte>>,
                       pops: nat)
    requires |memory| == BUFFER && ValidDriver(d) && d.Copy?
    requires SlotBytes(memory, d.slot)[..d.copied] == d.image[..d.copied]
    requires |accepted| < pops + SLOTS && d.slot == |accepted| % SLOTS
    requires MemoryInv(memory, accepted, images, pops)
    ensures MemoryInv(NextMemory(d, memory, i), accepted, images, pops)
  {
    CopyStep(d, memory, i);
    forall j | pops <= j < |accepted|
      ensures SlotBytes(NextMemory(d, memory, i), j % SLOTS) == accepted[j]
    {
      SlotsDiffer(|accepted|, j);
    }
  }

  lemma AcceptKeepsSlots(memory: seq<Byte>, accepted: seq<seq<Byte>>, images: seq<seq<Byte>>, pops: nat,
                         image: seq<Byte>)
    requires |memory| == BUFFER && MemoryInv(memory, accepted, images, pops)
    requires |image| <= SLOT && image <= SlotBytes(memory, |accepted| % SLOTS)
    ensures MemoryInv(memory, accepted + [SlotBytes(memory, |accepted| % SLOTS)], images + [image], pops)
  {
  }

  lemma PopKeepsSlots(memory: seq<Byte>, accepted: seq<seq<Byte>>, images: seq<seq<Byte>>, pops: nat)
    requires |memory| == BUFFER && MemoryInv(memory, accepted, images, pops)
    ensures MemoryInv(memory, accepted, images, pops + 1)
  {
  }

  lemma MemoryStep(base: nat, s: System, i: Input, h: History)
    requires ValidSystem(s, h) && BusInv(s.driver, s.regs)
    requires DriverInv(s.driver, s.regs.wstate, s.memory, |h.accepted|, h.pushes, h.pops)
    requires MemoryInv(s.memory, h.accepted, h.images, h.pops)
    ensures var s', h' := Next(base, s, i, h), Record(s, i, h);
            MemoryInv(s'.memory, h'.accepted, h'.images, h'.pops)
  {
    var h' := Record(s, i, h);
    if s.driver.Copy? {
      CopyKeepsSlots(s.driver, s.memory, i, h.accepted, h.images, h.pops);
    } else if Accepts(s, i) {
      AcceptKeepsSlots(s.memory, h.accepted, h.images, h.pops, s.driver.image);
    }
    if Pops(s, i, h) {
      PopKeepsSlots(NextMemory(s.driver, s.memory, i), h'.accepted, h'.images, h.pops);
    }
  }

  lemma WordInMemory(memory: seq<Byte>, accepted: seq<seq<Byte>>, images: seq<seq<Byte>>, pops: nat, n: nat, k: nat)
    requires |memory| == BUFFER && MemoryInv(memory, accepted, images, pops)
    requires pops <= n < |accepted| && k < WORDS
    ensures |accepted[n]| == SLOT
    ensures var at := SLOT * (n % SLOTS) + 8 * k; memory[at..at + 8] == Word(accepted[n], k)
  {
    assert SlotBytes(memory, n % SLOTS) == accepted[n];
    SliceOfSlice(memory, SLOT * (n % SLOTS), SLOT, 8 * k, 8);
  }

  lemma PoppedBeforeFetched(received: nat, k: nat, bursts: nat)
    requires received <= k < WORDS * bursts
    ensures received / WORDS <= k / WORDS < bursts
  {
  }

  /** A word is fetched from the slot of its descriptor, which has not been popped yet. */
  lemma FetchedWord(base: nat, s: System, i: Input, h: History)
    requires ValidSystem(s, h) && SlotBursts(base, h.dma.bursts)
    requires MemoryInv(s.memory, h.accepted, h.images, h.pops)
    requires FetchInv(s.fetched, h.dma.received, h.accepted, |h.dma.bursts|)
    requires h.pops == |h.dma.received| / WORDS
    ensures var f, k := NextFetched(base, s, i, h), |s.fetched|;
            f == s.fetched || (k < WORDS * |h.dma.bursts| && f == s.fetched + [Word(h.accepted[k / WORDS], k % WORDS)])
  {
    var k := |s.fetched|;
    SlotAddresses(base, h.dma.bursts);
    if k < WORDS * |h.dma.bursts| {
      PoppedBeforeFetched(|h.dma.received|, k, |h.dma.bursts|);
      WordInMemory(s.memory, h.accepted, h.images, h.pops, k / WORDS, k % WORDS);
    }
  }

  lemma FetchGrows(fetched: seq<seq<Byte>>, received: seq<D.ReadBeat>, accepted: seq<seq<Byte>>, bursts: nat,
                   fetched': seq<seq<Byte>>, received': seq<D.ReadBeat>, accepted': seq<seq<Byte>>, bursts': nat,
                   resp: Resp)
    requires forall j :: 0 <= j < |accepted'| ==> |accepted'[j]| == SLOT
    requires accepted <= accepted' && bursts <= bursts' <= |accepted'|
    requires FetchInv(fetched, received, accepted, bursts)
    requires
      || fetched' == fetched
      || (|fetched| < WORDS * bursts && fetched' == fetched + [Word(accepted[|fetched| / WORDS], |fetched| % WORDS)])
    requires
      || received' == received
      || (|received| < |fetched| && received' == received + [D.ReadBeat(fetched[|received|], resp)])
    ensures FetchInv(fetched', received', accepted', bursts')
  {
  }

  lemma FetchStep(base: nat, s: System, i: Input, h: History)
    requires Base(base) && Inv(base, s, h) && ValidSystem(s, h)
    requires (forall j :: 0 <= j < |Record(s, i, h).accepted| ==> |Record(s, i, h).accepted[j]| == SLOT)
    requires |Record(s, i, h).dma.bursts| <= |Record(s, i, h).accepted|
    ensures var s', h' := Next(base, s, i, h), Record(s, i, h);
            FetchInv(s'.fetched, h'.dma.received, h'.accepted, |h'.dma.bursts|)
  {
    EngineFacts(base, s.dma, h.dma);
    FetchedWord(base, s, i, h);
    DmaInterface(base, s, i, h);
    var h' := Record(s, i, h);
    FetchGrows(s.fetched, h.dma.received, h.accepted, |h.dma.bursts|,
               NextFetched(base, s, i, h), h'.dma.received, h'.accepted, |h'.dma.bursts|, i.resp);
  }

  /** The driver's side of a cycle: the write bus, the pulse and the counters. */
  lemma CounterStep(base: nat, s: System, i: Input, h: History)
    requires ValidSystem(s, h) && LegalInput(i) && (Pops(s, i, h) ==> h.pops < h.pushes)
    requires BusInv(s.driver, s.regs) && PulseInv(s.driver, s.regs, s.pulse, |h.accepted|, h.pushes)
    requires RingInv(s.ring, |h.accepted|, h.pushes, h.pops)
    requires DriverInv(s.driver, s.regs.wstate, s.memory, |h.accepted|, h.pushes, h.pops)
    ensures var s', h' := Next(base, s, i, h), Record(s, i, h);
            && BusInv(s'.driver, s'.regs)
            && PulseInv(s'.driver, s'.regs, s'.pulse, |h'.accepted|, h'.pushes)
            && RingInv(s'.ring, |h'.accepted|, h'.pushes, h'.pops)
  {
    BusStep(s, i, h, base);
    PulseStep(s, i, h, base);
    RingStep(base, s, i, h);
    NextCounters(base, s, i, h);
  }

  /** The hardware's side: the engine, its descriptors and the controller. */
  lemma HardwareStep(base: nat, s: System, i: Input, h: History)
    requires Base(base) && Inv(base, s, h) && ValidSystem(s, h)
    ensures var s', h' := Next(base, s, i, h), Record(s, i, h);
            && D.Inv(AXI64, s'.dma, h'.dma) && SlotOps(base, h'.dma.ops)
            && ControlInv(base, s'.control, s'.dma.a.descReady, |h'.dma.ops|, |h'.dma.received|, h'.dma.delivered,
                          h'.pushes, h'.pops)
  {
    DmaInterface(base, s, i, h);
    if Locks(s) {
      OpsStep(base, s.control, s.dma.a.descReady, h.dma.ops, |h.dma.received|, h.dma.delivered, h.pushes, h.pops);
    }
    ControlFacts(base, s, i, h);
    PopIsLastWord(base, s, i, h);
    ControlStep(base, s, i, h);
    DmaStep(base, s, i, h);
  }

  /** One clock cycle keeps everything, whatever driver, slave and stream consumer do. */
  lemma InvStep(base: nat, s: System, i: Input, h: History)
    requires Base(base) && Inv(base, s, h) && LegalInput(i)
    ensures ValidSystem(s, h) && Inv(base, Next(base, s, i, h), Record(s, i, h))
  {
    EngineFacts(base, s.dma, h.dma);
    assert ValidSystem(s, h);
    var s', h' := Next(base, s, i, h), Record(s, i, h);
    if Pops(s, i, h) {
      PopIsDue(base, s, i, h);
    }
    CounterStep(base, s, i, h);
    DriverStep(base, s, i, h);
    MemoryStep(base, s, i, h);
    HardwareStep(base, s, i, h);
    EngineFacts(base, s'.dma, h'.dma);
    FetchStep(base, s, i, h);
  }

  lemma InvInit(base: nat, s: System)
    requires Base(base) && Reset(s)
    ensures Inv(base, s, EMPTY)
  {
    D.InvInit(AXI64, s.dma);
  }

  ghost predicate LegalRun(inputs: seq<Input>) {
    forall k :: 0 <= k < |inputs| ==> LegalInput(inputs[k])
  }

  /** What a step needs to be defined. */
  ghost predicate Sound(s: System, h: History) {
    ValidSystem(s, h) && s.ring.head < SLOTS && s.ring.tail < SLOTS
  }

  lemma BurstsHaveBytes(e: D.Engine, i: D.Input, h: D.History)
    requires (e.a.starting ==> 0 < e.a.opCount) && forall b <- h.bursts :: 0 < b.bytes
    ensures forall b <- D.Record(AXI64, e, i, h).bursts :: 0 < b.bytes
  {
    if D.Issues(e.a) {
      TransferIsLegal(AXI64, e.a.addr, e.a.opCount);
    }
  }

  lemma SoundDriver(d: Driver, ring: C.Registers, regs: F.Registers, i: Input)
    requires ValidDriver(d) && ring.head < SLOTS && LegalInput(i)
    ensures ValidDriver(NextDriver(d, ring, regs, i))
  {
  }

  lemma SoundStep(base: nat, s: System, i: Input, h: History)
    requires Sound(s, h) && LegalInput(i)
    ensures Sound(Next(base, s, i, h), Record(s, i, h))
  {
    var input := DmaInput(s, i, |h.dma.received|);
    SoundDriver(s.driver, s.ring, s.regs, i);
    D.SoundStep(AXI64, s.dma, input);
    BurstsHaveBytes(s.dma, input, h.dma);
  }

  ghost function Run(base: nat, start: System, inputs: seq<Input>): (r: (System, History))
    requires Base(base) && Reset(start) && LegalRun(inputs)
    ensures Sound(r.0, r.1)
  {
    if inputs == [] then (start, EMPTY)
    else
      var (s, h) := Run(base, start, inputs[..|inputs| - 1]);
      var i := inputs[|inputs| - 1];
      SoundStep(base, s, i, h);
      (Next(base, s, i, h), Record(s, i, h))
  }

  lemma {:induction false} RunKeepsInv(base: nat, start: System, inputs: seq<Input>)
    requires Base(base) && Reset(start) && LegalRun(inputs)
    ensures Inv(base, Run(base, start, inputs).0, Run(base, start, inputs).1)
  {
    if inputs == [] {
      InvInit(base, start);
    } else {
      var n := |inputs| - 1;
      RunKeepsInv(base, start, inputs[..n]);
      var (s, h) := Run(base, start, inputs[..n]);
      InvStep(base, s, inputs[n], h);
    }
  }

  // ---------------------------------------------------------------------------------------------
  // What holds at any time in any run
  // ---------------------------------------------------------------------------------------------

  /**
   Descriptors go out one at a time: the n-th names the n-th slot, the next is not offered before
   every word of the earlier ones has left the engine, and it names the slot at the tail.
   */
  lemma OneDescriptorOutstanding(base: nat, start: System, inputs: seq<Input>)
    requires Base(base) && Reset(start) && LegalRun(inputs)
    ensures var (s, h) := Run(base, start, inputs);
            && SlotOps(base, h.dma.ops)
            && |h.dma.ops| <= h.dma.delivered / WORDS + 1
            && (Locks(s) ==>
                  && h.dma.delivered == WORDS * |h.dma.ops|
                  && |h.dma.ops| < |h.accepted|
                  && s.control.slotAddr == base + s.ring.tail * SLOT)
  {
    var (s, h) := Run(base, start, inputs);
    RunKeepsInv(base, start, inputs);
    EngineFacts(base, s.dma, h.dma);
    DeliveredNumbers(|h.dma.ops|, |h.dma.received|, h.dma.delivered);
  }

  lemma DeliveredNumbers(ops: nat, received: nat, delivered: nat)
    requires delivered <= received <= WORDS * ops && WORDS * ops - WORDS <= delivered
    ensures ops <= delivered / WORDS + 1
    ensures delivered == WORDS * ops ==> received / WORDS == ops
  {
  }

  /**
   No slot is overwritten before its last word has been read: until then it holds what was accepted,
   which starts with the image the send routine was given.
   */
  lemma SlotsAreStable(base: nat, start: System, inputs: seq<Input>, j: nat)
    requires Base(base) && Reset(start) && LegalRun(inputs)
    requires var h := Run(base, start, inputs).1; j < |h.accepted| && |h.dma.received| < WORDS * (j + 1)
    ensures var (s, h) := Run(base, start, inputs);
            && |h.accepted| == |h.images|
            && |h.accepted| <= |h.dma.received| / WORDS + SLOTS
            && h.images[j] <= h.accepted[j]
            && |s.memory| == BUFFER && SlotBytes(s.memory, j % SLOTS) == h.accepted[j]
  {
    var (s, h) := Run(base, start, inputs);
    RunKeepsInv(base, start, inputs);
    QuotientBound(|h.dma.received|, WORDS, j + 1);
  }

  /** The delivered stream, in any state that satisfies the invariant. */
  lemma DeliveredWords(base: nat, s: System, h: History)
    requires Base(base) && Inv(base, s, h)
    ensures h.dma.delivered <= |h.dma.pushed| && h.dma.delivered <= WORDS * |h.accepted|
    ensures forall j :: 0 <= j < |h.accepted| ==> |h.accepted[j]| == SLOT
    ensures forall k :: 0 <= k < h.dma.delivered ==>
              h.dma.pushed[k] == Beat(Word(h.accepted[k / WORDS], k % WORDS), Mask(8, 8), k % WORDS == WORDS - 1)
  {
    EngineFacts(base, s.dma, h.dma);
  }

  /** The k-th beat of the stream is the k-th word of the accepted slots, in order; tlast closes each slot. */
  lemma StreamIsFifo(base: nat, start: System, inputs: seq<Input>, k: nat)
    requires Base(base) && Reset(start) && LegalRun(inputs)
    requires k < Run(base, start, inputs).1.dma.delivered
    ensures var h := Run(base, start, inputs).1;
            && h.dma.delivered <= |h.dma.pushed|
            && k / WORDS < |h.accepted| && |h.accepted[k / WORDS]| == SLOT
            && h.dma.pushed[k] == Beat(Word(h.accepted[k / WORDS], k % WORDS), Mask(8, 8), k % WORDS == WORDS - 1)
  {
    var (s, h) := Run(base, start, inputs);
    RunKeepsInv(base, start, inputs);
    DeliveredWords(base, s, h);
  }
}
