/**
 The write engine, cycle by cycle: the IDLE / START / WRITE / FINISH_BURST / DROP_DATA machine, the
 status FIFO with its outstanding-burst counter, and the output stage. Aligned mode, tkeep and tlast
 enabled.
 */
module WriteDma {
  import opened BurstPlan
  import opened Options
  import opened OutputFifo
  import opened Stream
  import opened AxiResponse
  import opened Memory

  datatype Descriptor = Descriptor(addr: nat, len: nat, tag: nat)

  datatype StatusEntry = StatusEntry(len: nat, tag: nat, last: bool)

  datatype Report = Report(len: nat, tag: nat, error: Error)

  datatype Phase = Idle | Start | Write | FinishBurst | DropData

  /** Everything the environment drives in one cycle. */
  datatype Input = Input(
    enable: bool,
    descValid: bool,
    desc: Descriptor,
    tvalid: bool,
    beat: Beat,
    awready: bool,
    wready: bool,
    bvalid: bool,
    bresp: Resp)

  ghost predicate LegalInput(bus: Bus, i: Input)
    requires bus.Valid()
  {
    && (i.descValid ==> 0 < i.desc.len && i.desc.addr + i.desc.len <= bus.space)
    && |i.beat.data| == |i.beat.keep| == bus.width
    && (i.tvalid ==> WellFormed(bus.width, i.beat))
  }

  datatype Machine = Machine(
    phase: Phase,
    addr: nat,
    opCount: int,
    lastOffset: nat,
    length: nat,
    inCount: int,
    outCount: int,
    inputActive: bool,
    firstCycle: bool,
    outputLast: bool,
    lastTransfer: bool,
    tag: nat,
    awaddr: nat,
    awlen: int,
    awvalid: bool,
    descReady: bool,
    tready: bool)

  /** What the machine hands to the rest of the engine in one cycle. */
  datatype Effect = Effect(push: Option<Beat>, status: Option<StatusEntry>, issue: Option<Burst>)

  const NOTHING := Effect(None, None, None)

  predicate AnyFrom(keep: seq<bool>, k: nat) {
    exists i :: k <= i < |keep| && keep[i]
  }

  /** The loop that computes cycle_size: the lowest lane without a byte. */
  method CycleSize(keep: seq<bool>) returns (size: nat)
    ensures size == Lead(keep)
  {
    size := |keep|;
    for i := |keep| downto 0
      invariant i <= size <= |keep|
      invariant forall j :: i <= j < size ==> keep[j]
      invariant size < |keep| ==> !keep[size]
    {
      if !keep[i] {
        size := i;
      }
    }
    LeadIsLowest(keep, size);
  }

  lemma LeadIsLowest(keep: seq<bool>, size: nat)
    requires size <= |keep| && (forall j :: 0 <= j < size ==> keep[j])
    requires size < |keep| ==> !keep[size]
    ensures size == Lead(keep)
  {
    var k := Lead(keep);
    assert k < |keep| ==> !keep[k];
  }

  function NextIdle(bus: Bus, m: Machine, i: Input, available: bool): Machine
    requires bus.Valid()
  {
    var loaded := m.(
      addr := Aligned(bus, i.desc.addr),
      opCount := i.desc.len,
      lastOffset := i.desc.len % bus.width,
      tag := i.desc.tag,
      firstCycle := true,
      length := 0,
      tready := false,
      awvalid := m.awvalid && !i.awready);
    if m.descReady && i.descValid then loaded.(descReady := false, phase := Start)
    else loaded.(descReady := i.enable && available)
  }

  predicate Issues(m: Machine, i: Input, available: bool) {
    m.phase.Start? && !m.awvalid && available && (i.tvalid || !m.firstCycle)
  }

  function NextStart(bus: Bus, m: Machine, i: Input, ready: bool, available: bool): (Machine, Effect)
    requires bus.Valid() && 0 < m.opCount
  {
    TransferIsLegal(bus, m.addr, m.opCount);
    var t := Transfer(bus, m.addr, m.opCount);
    var cycles := (t - 1) / bus.width;
    var planned := m.(
      inCount := cycles,
      outCount := cycles,
      outputLast := cycles == 0,
      lastTransfer := t == m.opCount,
      inputActive := true,
      descReady := false,
      tready := false,
      awvalid := m.awvalid && !i.awready);
    if !m.awvalid && available then
      var addressed := planned.(awaddr := m.addr, awlen := cycles, awvalid := i.tvalid || !m.firstCycle);
      if Issues(m, i, available) then
        (addressed.(
          addr := (m.addr + t) % bus.space,
          opCount := m.opCount - t,
          tready := ready,
          phase := Write),
        NOTHING.(issue := Some(Burst(m.addr, t))))
      else
        (addressed, NOTHING)
    else
      (planned, NOTHING)
  }

  predicate Moves(m: Machine, i: Input) {
    (m.tready && i.tvalid) || (!m.inputActive && !m.lastTransfer)
  }

  function NextWrite(bus: Bus, m: Machine, i: Input, ready: bool, available: bool): (Machine, Effect)
    requires bus.Valid()
  {
    var w := bus.width;
    var waiting := m.(
      descReady := false,
      tready := ready && (m.lastTransfer || m.inputActive),
      awvalid := m.awvalid && !i.awready);
    if !Moves(m, i) then (waiting, NOTHING)
    else
      var inputActive := if m.inputActive then m.inCount > 0 else false;
      var counted := waiting.(
        inCount := if m.inputActive then m.inCount - 1 else m.inCount,
        inputActive := inputActive && !i.beat.last,
        outCount := m.outCount - 1,
        outputLast := m.outCount - 1 == 0,
        firstCycle := false,
        length := m.length + w,
        tready := false);
      var cycleSize := Lead(i.beat.keep);
      if i.beat.last then
        if m.outputLast then
          // the frame ends with the burst
          var overlong := m.lastTransfer && m.lastOffset > 0 && AnyFrom(i.beat.keep, m.lastOffset);
          var strobe := if overlong then Mask(w, m.lastOffset) else i.beat.keep;
          var length := m.length + if overlong then m.lastOffset else cycleSize;
          (counted.(length := length, descReady := i.enable && available, phase := Idle),
          Effect(Some(Beat(i.beat.data, strobe, true)), Some(StatusEntry(length, m.tag, true)), None))
        else
          // the frame ends first: pad the burst
          var length := m.length + cycleSize;
          (counted.(length := length, phase := FinishBurst),
          Effect(Some(Beat(i.beat.data, i.beat.keep, false)), Some(StatusEntry(length, m.tag, true)), None))
      else if m.outputLast then
        if m.opCount > 0 then
          (counted.(phase := Start),
          Effect(Some(Beat(i.beat.data, Mask(w, w), true)), Some(StatusEntry(m.length + w, m.tag, false)), None))
        else
          // the descriptor ends first: drop the rest of the frame
          var strobe := if m.lastOffset > 0 then Mask(w, m.lastOffset) else Mask(w, w);
          var length := m.length + if m.lastOffset > 0 then m.lastOffset else w;
          (counted.(length := length, tready := true, phase := DropData),
          Effect(Some(Beat(i.beat.data, strobe, true)), Some(StatusEntry(length, m.tag, true)), None))
      else
        (counted.(tready := ready && (m.lastTransfer || inputActive)),
        NOTHING.(push := Some(Beat(i.beat.data, Mask(w, w), false))))
  }

  function NextFinish(bus: Bus, m: Machine, i: Input, ready: bool, available: bool): (Machine, Effect) {
    var waiting := m.(descReady := false, tready := false, awvalid := m.awvalid && !i.awready);
    if !ready then (waiting, NOTHING)
    else
      var counted := waiting.(
        inCount := if m.inputActive then m.inCount - 1 else m.inCount,
        inputActive := if m.inputActive then m.inCount > 0 else false,
        outCount := m.outCount - 1,
        outputLast := m.outCount - 1 == 0);
      var padding := Beat(seq(bus.width, _ => 0), Mask(bus.width, 0), m.outputLast);
      (if m.outputLast then counted.(descReady := i.enable && available, phase := Idle) else counted,
      NOTHING.(push := Some(padding)))
  }

  function NextDrop(m: Machine, i: Input, available: bool): Machine {
    var waiting := m.(descReady := false, tready := true, awvalid := m.awvalid && !i.awready);
    if i.tvalid && i.beat.last then
      waiting.(tready := false, descReady := i.enable && available, phase := Idle)
    else
      waiting
  }

  /** The state machine: registers after the edge, and the effects of this cycle. */
  function NextMachine(bus: Bus, m: Machine, i: Input, ready: bool, available: bool): (Machine, Effect)
    requires bus.Valid() && (m.phase.Start? ==> 0 < m.opCount)
  {
    match m.phase
    case Idle => (NextIdle(bus, m, i, available), NOTHING)
    case Start => NextStart(bus, m, i, ready, available)
    case Write => NextWrite(bus, m, i, ready, available)
    case FinishBurst => NextFinish(bus, m, i, ready, available)
    case DropData => (NextDrop(m, i, available), NOTHING)
  }

  /** Status FIFO, response registers and the counter of outstanding bursts. */
  datatype StatusSide = StatusSide(
    fifo: Ring<StatusEntry>,
    bready: bool,
    bresp: Resp,
    report: Report,
    reportValid: bool,
    active: nat,
    available: bool)

  function NextResp(s: StatusSide, i: Input): Resp {
    if s.bready && i.bvalid && IsError(i.bresp) then i.bresp else s.bresp
  }

  predicate Completes(s: StatusSide, i: Input) {
    !s.fifo.Empty() && s.bready && i.bvalid
  }

  function NextActive(active: nat, inc: bool, dec: bool): (nat, bool) {
    if active < DEPTH && inc && !dec then (active + 1, active < DEPTH - 1)
    else if active > 0 && !inc && dec then (active - 1, true)
    else (active, active < DEPTH)
  }

  function NextStatus(s: StatusSide, i: Input, push: Option<StatusEntry>, inc: bool): StatusSide
    requires s.fifo.Valid()
  {
    var stored := if push.Some? then s.fifo.Push(push.value) else s.fifo;
    var (active, available) := NextActive(s.active, inc, Completes(s, i));
    var base := s.(fifo := stored, bresp := NextResp(s, i), reportValid := false, active := active,
                available := available);
    if Completes(s, i) then
      var entry := s.fifo.Front();
      base.(
        fifo := Ring(stored.slots, stored.wr, s.fifo.Pop().rd),
        report := Report(entry.len, entry.tag, WriteErrorOf(NextResp(s, i))),
        reportValid := entry.last,
        bready := false,
        bresp := if entry.last then Okay else NextResp(s, i))
    else
      base.(bready := !s.fifo.Empty())
  }

  datatype Engine = Engine(m: Machine, s: StatusSide, out: Stage<Beat>)

  function Step(bus: Bus, e: Engine, i: Input): (Machine, Effect)
    requires bus.Valid() && (e.m.phase.Start? ==> 0 < e.m.opCount)
  {
    NextMachine(bus, e.m, i, !e.out.halfFull, e.s.available)
  }

  function Next(bus: Bus, e: Engine, i: Input): Engine
    requires bus.Valid() && (e.m.phase.Start? ==> 0 < e.m.opCount) && e.out.ring.Valid() && e.s.fifo.Valid()
  {
    var (m, fx) := Step(bus, e, i);
    Engine(m, NextStatus(e.s, i, fx.status, fx.issue.Some?), e.out.Next(fx.push, i.wready))
  }

  ghost predicate Reset(e: Engine) {
    && e.m.phase.Idle? && !e.m.awvalid && !e.m.descReady && !e.m.tready
    && e.s.fifo.Valid() && e.s.fifo.wr == e.s.fifo.rd == 0
    && !e.s.bready && e.s.bresp == Okay && e.s.active == 0 && e.s.available
    && e.out.ring.Valid() && e.out.ring.wr == e.out.ring.rd == 0 && !e.out.valid && !e.out.halfFull
  }

  /** What happened at the interfaces since reset. */
  datatype History = History(
    ops: seq<Descriptor>,
    consumed: seq<Beat>,
    bursts: seq<Burst>,
    addressed: nat,
    pushed: seq<Beat>,
    delivered: nat,
    entries: seq<StatusEntry>,
    resps: seq<Resp>,
    reports: seq<Report>)

  function Record(bus: Bus, e: Engine, i: Input, h: History): History
    requires bus.Valid() && (e.m.phase.Start? ==> 0 < e.m.opCount) && e.s.fifo.Valid()
  {
    var fx := Step(bus, e, i).1;
    History(
      if e.m.descReady && i.descValid then h.ops + [i.desc] else h.ops,
      if e.m.tready && i.tvalid then h.consumed + [i.beat] else h.consumed,
      h.bursts + Optional(fx.issue),
      if e.m.awvalid && i.awready then h.addressed + 1 else h.addressed,
      h.pushed + Optional(fx.push),
      if e.out.valid && i.wready then h.delivered + 1 else h.delivered,
      h.entries + Optional(fx.status),
      if e.s.bready && i.bvalid then h.resps + [i.bresp] else h.resps,
      if Completes(e.s, i) && e.s.fifo.Front().last then
        h.reports + [Report(e.s.fifo.Front().len, e.s.fifo.Front().tag, WriteErrorOf(NextResp(e.s, i)))]
      else h.reports)
  }

  const EMPTY := History([], [], [], 0, [], 0, [], [], [])
}
