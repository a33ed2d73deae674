/**
 The read engine, cycle by cycle: an address machine that issues bursts, a data machine that frames
 the returned beats, and the output stage. Aligned mode, tkeep and tlast enabled.
 */
module ReadDma {
  import opened Arithmetic
  import opened BurstPlan
  import opened Options
  import opened OutputFifo
  import opened Stream
  import opened AxiResponse
  import opened Memory

  datatype Descriptor = Descriptor(addr: nat, len: nat, tag: nat)

  datatype Report = Report(tag: nat, error: Error)

  /** One beat of the R channel. */
  datatype ReadBeat = ReadBeat(data: seq<Byte>, resp: Resp)

  /** Everything the environment drives in one cycle. */
  datatype Input = Input(
    enable: bool,
    descValid: bool,
    desc: Descriptor,
    arready: bool,
    rvalid: bool,
    r: ReadBeat,
    tready: bool)

  ghost predicate LegalInput(bus: Bus, i: Input)
    requires bus.Valid()
  {
    && (i.descValid ==> 0 < i.desc.len && i.desc.addr + i.desc.len <= bus.space)
    && (i.rvalid ==> |i.r.data| == bus.width)
  }

  /** The axis_cmd registers. */
  datatype Command = Command(lastOffset: nat, inCount: int, outCount: int, tag: nat)

  datatype AddressSide = AddressSide(
    starting: bool,
    addr: nat,
    opCount: int,
    cmd: Command,
    cmdValid: bool,
    descReady: bool,
    araddr: nat,
    arlen: int,
    arvalid: bool)

  datatype DataSide = DataSide(
    reading: bool,
    lastOffset: nat,
    inCount: int,
    outCount: int,
    inputActive: bool,
    outputActive: bool,
    outputLast: bool,
    rready: bool,
    rresp: Resp,
    tag: nat,
    report: Report,
    reportValid: bool)

  datatype Engine = Engine(a: AddressSide, d: DataSide, out: Stage<Beat>)

  predicate Accepts(a: AddressSide, i: Input) { a.descReady && i.descValid }

  predicate Issues(a: AddressSide) { a.starting && !a.arvalid }

  /** The first combinational block and the registers it feeds. */
  function NextAddress(bus: Bus, a: AddressSide, i: Input, cmdReady: bool): AddressSide
    requires bus.Valid() && (a.starting ==> 0 < a.opCount)
  {
    var base := a.(
      descReady := false,
      arvalid := a.arvalid && !i.arready,
      cmdValid := a.cmdValid && !cmdReady);
    if !a.starting then
      if Accepts(a, i) then
        var cycles := (i.desc.len - 1) / bus.width;
        base.(
          starting := true,
          addr := Aligned(bus, i.desc.addr),
          opCount := i.desc.len,
          cmd := Command(i.desc.len % bus.width, cycles, cycles, i.desc.tag),
          cmdValid := true)
      else
        base.(descReady := !a.cmdValid && i.enable)
    else if !a.arvalid then
      TransferIsLegal(bus, a.addr, a.opCount);
      var t := Transfer(bus, a.addr, a.opCount);
      base.(
        araddr := a.addr,
        arlen := (t - 1) / bus.width,
        arvalid := true,
        addr := (a.addr + t) % bus.space,
        opCount := a.opCount - t,
        starting := a.opCount - t > 0,
        descReady := a.opCount - t <= 0 && !a.cmdValid && i.enable)
    else
      base
  }

  function NextResp(d: DataSide, i: Input): Resp {
    if d.rready && i.rvalid && IsError(i.r.resp) then i.r.resp else d.rresp
  }

  predicate Transfers(d: DataSide, i: Input) {
    d.reading && ((d.rready && i.rvalid) || !d.inputActive)
  }

  /** The beat handed to the output stage in this cycle. */
  function Pushes(bus: Bus, d: DataSide, i: Input): Option<Beat> {
    if Transfers(d, i) then
      var keep := if d.outputLast && d.lastOffset > 0 then Mask(bus.width, d.lastOffset)
                  else Mask(bus.width, bus.width);
      Some(Beat(i.r.data, keep, d.outputLast))
    else
      None
  }

  /** The second combinational block and the registers it feeds; `ready` is the output stage's. */
  function NextData(bus: Bus, d: DataSide, cmd: Command, cmdValid: bool, i: Input, ready: bool): DataSide {
    var base := d.(reportValid := false, rresp := NextResp(d, i));
    if !d.reading then
      base.(
        lastOffset := cmd.lastOffset,
        inCount := cmd.inCount,
        outCount := cmd.outCount,
        tag := cmd.tag,
        outputLast := cmd.outCount == 0,
        inputActive := true,
        outputActive := true,
        rready := cmdValid && ready,
        reading := cmdValid)
    else if Transfers(d, i) then
      var inCount := if d.inputActive then d.inCount - 1 else d.inCount;
      var inputActive := if d.inputActive then d.inCount > 0 else false;
      var outCount := if d.outputActive then d.outCount - 1 else d.outCount;
      var outputActive := if d.outputActive then d.outCount > 0 else false;
      var counted := base.(
        inCount := inCount,
        inputActive := inputActive,
        outCount := outCount,
        outputActive := outputActive,
        outputLast := outCount == 0);
      if d.outputLast then
        counted.(
          report := Report(d.tag, ReadErrorOf(NextResp(d, i))),
          reportValid := true,
          rresp := Okay,
          rready := false,
          reading := false)
      else
        counted.(rready := ready && inputActive)
    else
      base.(rready := ready && d.inputActive)
  }

  function Next(bus: Bus, e: Engine, i: Input): Engine
    requires bus.Valid() && e.out.ring.Valid() && (e.a.starting ==> 0 < e.a.opCount)
  {
    Engine(
      NextAddress(bus, e.a, i, !e.d.reading && e.a.cmdValid),
      NextData(bus, e.d, e.a.cmd, e.a.cmdValid, i, !e.out.halfFull),
      e.out.Next(Pushes(bus, e.d, i), i.tready))
  }

  /** What happened at the interfaces since reset. */
  datatype History = History(
    ops: seq<Descriptor>,
    bursts: seq<Burst>,
    received: seq<ReadBeat>,
    pushed: seq<Beat>,
    delivered: nat,
    reports: seq<Report>)

  function Record(bus: Bus, e: Engine, i: Input, h: History): History
    requires bus.Valid() && (e.a.starting ==> 0 < e.a.opCount)
  {
    History(
      if Accepts(e.a, i) then h.ops + [i.desc] else h.ops,
      if Issues(e.a) then
        TransferIsLegal(bus, e.a.addr, e.a.opCount);
        h.bursts + [Burst(e.a.addr, Transfer(bus, e.a.addr, e.a.opCount))]
      else h.bursts,
      if e.d.rready && i.rvalid then h.received + [i.r] else h.received,
      h.pushed + Optional(Pushes(bus, e.d, i)),
      if e.out.valid && i.tready then h.delivered + 1 else h.delivered,
      if Transfers(e.d, i) && e.d.outputLast then h.reports + [Report(e.d.tag, ReadErrorOf(NextResp(e.d, i)))]
        else h.reports)
  }

  ghost predicate Reset(bus: Bus, e: Engine) {
    && !e.a.starting && !e.a.cmdValid && !e.a.descReady && !e.a.arvalid
    && !e.d.reading && !e.d.rready && e.d.rresp == Okay && !e.d.reportValid
    && e.out.ring.Valid() && e.out.ring.wr == e.out.ring.rd == 0 && !e.out.valid && !e.out.halfFull
  }

  // ---------------------------------------------------------------------------------------------
  // What the engine is for, said without its registers
  // ---------------------------------------------------------------------------------------------

  /** The bursts of a list of descriptors. */
  function Plans(bus: Bus, ops: seq<Descriptor>): (bursts: seq<Burst>)
    requires bus.Valid()
  {
    if ops == [] then []
    else
      var op := ops[|ops| - 1];
      Plans(bus, ops[..|ops| - 1]) + Plan(bus, Aligned(bus, op.addr), op.len)
  }

  datatype Mark = Mark(keep: seq<bool>, last: bool)

  /** tkeep and tlast of the frame of `len` bytes: all lanes but for the tail of the last beat. */
  function FrameMarks(bus: Bus, len: nat): (marks: seq<Mark>)
    requires bus.Valid() && 0 < len
  {
    var n := bus.Beats(len);
    seq(n, k requires 0 <= k < n =>
      if k + 1 == n then Mark(Mask(bus.width, len - k * bus.width), true)
      else Mark(Mask(bus.width, bus.width), false))
  }

  ghost predicate LegalOps(ops: seq<Descriptor>) {
    forall i :: 0 <= i < |ops| ==> 0 < ops[i].len
  }

  function Marks(bus: Bus, ops: seq<Descriptor>): (marks: seq<Mark>)
    requires bus.Valid() && LegalOps(ops)
  {
    if ops == [] then []
    else Marks(bus, ops[..|ops| - 1]) + FrameMarks(bus, ops[|ops| - 1].len)
  }

  function MarksOf(beats: seq<Beat>): (marks: seq<Mark>) {
    seq(|beats|, k requires 0 <= k < |beats| => Mark(beats[k].keep, beats[k].last))
  }

  function RespsOf(beats: seq<ReadBeat>): (resps: seq<Resp>) {
    seq(|beats|, k requires 0 <= k < |beats| => beats[k].resp)
  }

  function Reports(bus: Bus, ops: seq<Descriptor>, received: seq<ReadBeat>): (reports: seq<Report>)
    requires bus.Valid() && LegalOps(ops) && |received| == |Marks(bus, ops)|
  {
    if ops == [] then []
    else
      var earlier := ops[..|ops| - 1];
      var from := |Marks(bus, earlier)|;
      Reports(bus, earlier, received[..from])
        + [Report(ops[|ops| - 1].tag, ReadErrorOf(Worst(RespsOf(received[from..]))))]
  }

  // ---------------------------------------------------------------------------------------------
  // The invariant
  // ---------------------------------------------------------------------------------------------

  /** What is left of the current descriptor, and that with it the bursts so far are the plans. */
  ghost predicate Planned(bus: Bus, starting: bool, addr: nat, opCount: int, ops: seq<Descriptor>, bursts: seq<Burst>)
    requires bus.Valid()
  {
    && (starting ==> 0 < opCount && addr % bus.width == 0 && addr + opCount <= bus.space)
    && bursts + (if starting then Plan(bus, addr, opCount) else []) == Plans(bus, ops)
  }

  /** A pending address is the last burst's. */
  ghost predicate Addressed(bus: Bus, a: AddressSide, bursts: seq<Burst>)
    requires bus.Valid()
  {
    a.arvalid ==>
      && 0 < |bursts|
      && var b := bursts[|bursts| - 1];
         a.araddr == b.addr && 0 < b.bytes && a.arlen + 1 == bus.Beats(b.bytes)
  }

  ghost predicate AddressInv(bus: Bus, a: AddressSide, ops: seq<Descriptor>, bursts: seq<Burst>)
    requires bus.Valid()
  {
    && Planned(bus, a.starting, a.addr, a.opCount, ops, bursts)
    && (a.descReady ==> !a.starting && !a.cmdValid)
    && Addressed(bus, a, bursts)
  }

  ghost predicate CommandMatches(bus: Bus, cmd: Command, op: Descriptor)
    requires bus.Valid()
  {
    && 0 < op.len
    && cmd.lastOffset == op.len % bus.width
    && cmd.inCount == cmd.outCount == bus.Beats(op.len) - 1
    && cmd.tag == op.tag
  }

  /** Descriptors the data machine has finished with. */
  ghost function Finished(d: DataSide, cmdValid: bool, h: History): int {
    |h.ops| - (if cmdValid then 1 else 0) - (if d.reading then 1 else 0)
  }

  /** Position in the frame of the descriptor being read. */
  ghost predicate ReadingInv(bus: Bus, d: DataSide, op: Descriptor, j: int)
    requires bus.Valid()
  {
    && 0 < op.len
    && 0 <= j < bus.Beats(op.len)
    && d.inCount == d.outCount == bus.Beats(op.len) - 1 - j
    && d.inputActive && d.outputActive
    && (d.outputLast <==> d.outCount == 0)
    && d.lastOffset == op.len % bus.width
    && d.tag == op.tag
  }

  ghost predicate Carried(bus: Bus, received: seq<ReadBeat>, pushed: seq<Beat>) {
    && |received| == |pushed|
    && (forall k :: 0 <= k < |pushed| ==> pushed[k].data == received[k].data && |pushed[k].data| == bus.width)
  }

  /** The first `n` descriptors' frames are out; `j` beats of the next one are. */
  ghost predicate Framed(bus: Bus, ops: seq<Descriptor>, n: nat, j: nat, marks: seq<Mark>)
    requires bus.Valid() && LegalOps(ops) && n <= |ops|
  {
    var before := Marks(bus, ops[..n]);
    if j == 0 then marks == before
    else
      && n < |ops|
      && j <= bus.Beats(ops[n].len)
      && marks == before + FrameMarks(bus, ops[n].len)[..j]
  }

  ghost predicate Reported(bus: Bus, ops: seq<Descriptor>, n: nat, rresp: Resp, received: seq<ReadBeat>,
                           reports: seq<Report>)
    requires bus.Valid() && LegalOps(ops) && n <= |ops|
  {
    var from := |Marks(bus, ops[..n])|;
    && from <= |received|
    && reports == Reports(bus, ops[..n], received[..from])
    && rresp == Worst(RespsOf(received[from..]))
  }

  ghost predicate Control(bus: Bus, d: DataSide, cmd: Command, cmdValid: bool, h: History)
    requires bus.Valid()
  {
    var n := Finished(d, cmdValid, h);
    && LegalOps(h.ops)
    && 0 <= n
    && (cmdValid ==> CommandMatches(bus, cmd, h.ops[|h.ops| - 1]))
    && (d.rready ==> d.reading)
    && (d.reading ==> ReadingInv(bus, d, h.ops[n], Position(bus, d, h.ops[n])))
  }

  ghost function Position(bus: Bus, d: DataSide, op: Descriptor): int
    requires bus.Valid() && 0 < op.len
  {
    bus.Beats(op.len) - 1 - d.outCount
  }

  ghost predicate DataInv(bus: Bus, d: DataSide, cmd: Command, cmdValid: bool, h: History)
    requires bus.Valid()
  {
    && Control(bus, d, cmd, cmdValid, h)
    && Carried(bus, h.received, h.pushed)
    && var n := Finished(d, cmdValid, h);
       && Framed(bus, h.ops, n, if d.reading then Position(bus, d, h.ops[n]) else 0, MarksOf(h.pushed))
       && Reported(bus, h.ops, n, d.rresp, h.received, h.reports)
  }

  ghost predicate Inv(bus: Bus, e: Engine, h: History)
    requires bus.Valid()
  {
    && AddressInv(bus, e.a, h.ops, h.bursts)
    && DataInv(bus, e.d, e.a.cmd, e.a.cmdValid, h)
    && e.out.Represents(h.pushed, h.delivered)
    && e.out.Throttled(e.d.rready)
  }

  const EMPTY := History([], [], [], [], 0, [])

  lemma InvInit(bus: Bus, e: Engine)
    requires bus.Valid() && Reset(bus, e)
    ensures Inv(bus, e, EMPTY)
  {
  }

  lemma AcceptStep(bus: Bus, a: AddressSide, i: Input, cmdReady: bool, ops: seq<Descriptor>, bursts: seq<Burst>)
    requires bus.Valid() && AddressInv(bus, a, ops, bursts) && LegalInput(bus, i)
    requires Accepts(a, i)
    ensures AddressInv(bus, NextAddress(bus, a, i, cmdReady), ops + [i.desc], bursts)
  {
    assert (ops + [i.desc])[..|ops|] == ops;
    var plan := Plan(bus, Aligned(bus, i.desc.addr), i.desc.len);
    assert Plans(bus, ops + [i.desc]) == bursts + [] + plan == bursts + plan;
  }

  /** What is left to plan once the first burst has been issued. */
  lemma PlanAfterBurst(bus: Bus, addr: nat, count: nat, bursts: seq<Burst>)
    requires bus.Valid() && 0 < count
    ensures var t := Transfer(bus, addr, count);
            && 0 < t <= count
            && bursts + Plan(bus, addr, count)
            == bursts + [Burst(addr, t)] + if t < count then Plan(bus, addr + t, count - t) else []
  {
    TransferIsLegal(bus, addr, count);
    var t := Transfer(bus, addr, count);
    var rest := Plan(bus, addr + t, count - t);
    assert bursts + ([Burst(addr, t)] + rest) == bursts + [Burst(addr, t)] + rest;
  }

  /** The next burst's address is aligned and in the address space. */
  lemma NextAligned(bus: Bus, addr: nat, count: nat)
    requires bus.Valid() && 0 < count && addr % bus.width == 0 && addr + count <= bus.space
    requires Transfer(bus, addr, count) < count
    ensures (addr + Transfer(bus, addr, count)) % bus.width == 0
    ensures (addr + Transfer(bus, addr, count)) % bus.space == addr + Transfer(bus, addr, count)
  {
    TransferEndsAligned(bus, addr, count);
    SmallQuotient(addr + Transfer(bus, addr, count), bus.space);
  }

  /** The address machine's registers after it has issued a burst of `t` bytes. */
  lemma IssueNext(bus: Bus, a: AddressSide, i: Input, cmdReady: bool, t: nat)
    requires bus.Valid() && (a.starting ==> 0 < a.opCount) && Issues(a)
    requires t == Transfer(bus, a.addr, a.opCount) && t <= a.opCount
    requires t < a.opCount ==> (a.addr + t) % bus.space == a.addr + t
    ensures var a' := NextAddress(bus, a, i, cmdReady);
            && a'.arvalid && a'.araddr == a.addr && a'.arlen == (t - 1) / bus.width
            && a'.starting == (t < a.opCount) && a'.opCount == a.opCount - t
            && (t < a.opCount ==> a'.addr == a.addr + t)
            && (a'.descReady ==> !a'.starting && !a.cmdValid) && (a'.cmdValid ==> a.cmdValid)
  {
  }

  lemma IssuePlanned(bus: Bus, addr: nat, count: nat, ops: seq<Descriptor>, bursts: seq<Burst>)
    requires bus.Valid() && Planned(bus, true, addr, count, ops, bursts)
    ensures var t := Transfer(bus, addr, count);
            && 0 < t <= count
            && Planned(bus, t < count, addr + t, count - t, ops, bursts + [Burst(addr, t)])
            && (t < count ==> (addr + t) % bus.space == addr + t)
  {
    PlanAfterBurst(bus, addr, count, bursts);
    if Transfer(bus, addr, count) < count {
      NextAligned(bus, addr, count);
    }
  }

  lemma PlanIsOver(bus: Bus, addr: nat, addr': nat, opCount: int, ops: seq<Descriptor>, bursts: seq<Burst>)
    requires bus.Valid() && Planned(bus, false, addr, opCount, ops, bursts)
    ensures Planned(bus, false, addr', opCount, ops, bursts)
  {
  }

  lemma IssueStep(bus: Bus, a: AddressSide, i: Input, cmdReady: bool, ops: seq<Descriptor>, bursts: seq<Burst>)
    requires bus.Valid() && AddressInv(bus, a, ops, bursts)
    requires Issues(a)
    ensures 0 < Transfer(bus, a.addr, a.opCount)
    ensures AddressInv(bus, NextAddress(bus, a, i, cmdReady), ops,
                       bursts + [Burst(a.addr, Transfer(bus, a.addr, a.opCount))])
  {
    var t := Transfer(bus, a.addr, a.opCount);
    IssuePlanned(bus, a.addr, a.opCount, ops, bursts);
    IssueNext(bus, a, i, cmdReady, t);
    if t == a.opCount {
      PlanIsOver(bus, a.addr + t, NextAddress(bus, a, i, cmdReady).addr, 0, ops, bursts + [Burst(a.addr, t)]);
    }
  }

  lemma AddressStep(bus: Bus, e: Engine, i: Input, h: History)
    requires bus.Valid() && AddressInv(bus, e.a, h.ops, h.bursts) && LegalInput(bus, i)
    ensures var h' := Record(bus, e, i, h);
            AddressInv(bus, NextAddress(bus, e.a, i, !e.d.reading && e.a.cmdValid), h'.ops, h'.bursts)
  {
    var cmdReady := !e.d.reading && e.a.cmdValid;
    if Accepts(e.a, i) {
      AcceptStep(bus, e.a, i, cmdReady, h.ops, h.bursts);
    } else if Issues(e.a) {
      IssueStep(bus, e.a, i, cmdReady, h.ops, h.bursts);
    }
  }

  lemma LastBeatBytes(bus: Bus, len: nat)
    requires bus.Valid() && 0 < len
    ensures len - (bus.Beats(len) - 1) * bus.width == if len % bus.width > 0 then len % bus.width else bus.width
  {
    var w := bus.width;
    var q := (len - 1) / w;
    if len % w > 0 {
      assert len - 1 == len / w * w + (len % w - 1);
      QuotientIsUnique(len - 1, w, len / w, len % w - 1);
    } else {
      assert len - 1 == (len / w - 1) * w + (w - 1);
      QuotientIsUnique(len - 1, w, len / w - 1, w - 1);
    }
  }

  lemma MarksAppend(beats: seq<Beat>, b: Beat)
    ensures MarksOf(beats + [b]) == MarksOf(beats) + [Mark(b.keep, b.last)]
  {
  }

  lemma FramedAppend(bus: Bus, ops: seq<Descriptor>, n: nat, j: nat, marks: seq<Mark>)
    requires bus.Valid() && LegalOps(ops) && n < |ops| && j < bus.Beats(ops[n].len)
    requires Framed(bus, ops, n, j, marks)
    ensures Framed(bus, ops, n, j + 1, marks + [FrameMarks(bus, ops[n].len)[j]])
  {
    var frame := FrameMarks(bus, ops[n].len);
    assert frame[..j + 1] == frame[..j] + [frame[j]];
  }

  lemma FrameEnds(bus: Bus, ops: seq<Descriptor>, n: nat, marks: seq<Mark>)
    requires bus.Valid() && LegalOps(ops) && n < |ops| && Framed(bus, ops, n, bus.Beats(ops[n].len), marks)
    ensures Framed(bus, ops, n + 1, 0, marks)
    ensures Marks(bus, ops[..n + 1]) == Marks(bus, ops[..n]) + FrameMarks(bus, ops[n].len)
  {
    var frame := FrameMarks(bus, ops[n].len);
    assert frame[..|frame|] == frame;
    assert ops[..n + 1][..n] == ops[..n];
  }

  lemma ReportedAppend(bus: Bus, ops: seq<Descriptor>, n: nat, rresp: Resp, received: seq<ReadBeat>,
                       reports: seq<Report>, r: ReadBeat)
    requires bus.Valid() && LegalOps(ops) && n <= |ops| && Reported(bus, ops, n, rresp, received, reports)
    ensures Reported(bus, ops, n, if IsError(r.resp) then r.resp else rresp, received + [r], reports)
  {
    var from := |Marks(bus, ops[..n])|;
    assert (received + [r])[..from] == received[..from];
    assert (received + [r])[from..] == received[from..] + [r];
    assert RespsOf(received[from..] + [r]) == RespsOf(received[from..]) + [r.resp];
    WorstAppend(RespsOf(received[from..]), r.resp);
  }

  lemma ReportedEnds(bus: Bus, ops: seq<Descriptor>, n: nat, rresp: Resp, received: seq<ReadBeat>, reports: seq<Report>)
    requires bus.Valid() && LegalOps(ops) && n < |ops| && Reported(bus, ops, n, rresp, received, reports)
    requires |received| == |Marks(bus, ops[..n])| + bus.Beats(ops[n].len)
    ensures Reported(bus, ops, n + 1, Okay, received, reports + [Report(ops[n].tag, ReadErrorOf(rresp))])
  {
    assert ops[..n + 1][..n] == ops[..n];
    assert received[..|received|] == received && received[|received|..] == [];
  }

  /** What one received beat does to the history. */
  function Receive(bus: Bus, d: DataSide, i: Input, h: History): History {
    h.(received := h.received + [i.r],
       pushed := h.pushed + Optional(Pushes(bus, d, i)),
       reports := if d.outputLast then h.reports + [Report(d.tag, ReadErrorOf(NextResp(d, i)))] else h.reports)
  }

  lemma PushedMark(bus: Bus, d: DataSide, i: Input, op: Descriptor)
    requires bus.Valid() && 0 < op.len && ReadingInv(bus, d, op, Position(bus, d, op))
    requires d.rready && i.rvalid && d.reading
    ensures var b := Pushes(bus, d, i);
            b.Some? && Mark(b.value.keep, b.value.last) == FrameMarks(bus, op.len)[Position(bus, d, op)]
  {
    LastBeatBytes(bus, op.len);
  }

  lemma ReceiveControl(bus: Bus, d: DataSide, cmd: Command, cmdValid: bool, h: History, i: Input, ready: bool)
    requires bus.Valid() && Control(bus, d, cmd, cmdValid, h)
    requires d.rready && i.rvalid
    ensures Control(bus, NextData(bus, d, cmd, cmdValid, i, ready), cmd, cmdValid, Receive(bus, d, i, h))
  {
  }

  lemma ReceiveFrame(bus: Bus, d: DataSide, op: Descriptor, h: History, n: nat, i: Input)
    requires bus.Valid() && LegalOps(h.ops) && n < |h.ops| && op == h.ops[n]
    requires d.reading && d.rready && i.rvalid && ReadingInv(bus, d, op, Position(bus, d, op))
    requires Framed(bus, h.ops, n, Position(bus, d, op), MarksOf(h.pushed))
    ensures Framed(bus, h.ops, n, Position(bus, d, op) + 1, MarksOf(Receive(bus, d, i, h).pushed))
  {
    PushedMark(bus, d, i, op);
    MarksAppend(h.pushed, Pushes(bus, d, i).value);
    FramedAppend(bus, h.ops, n, Position(bus, d, op), MarksOf(h.pushed));
  }

  lemma ReceiveCarried(bus: Bus, d: DataSide, h: History, i: Input)
    requires bus.Valid() && d.reading && d.rready && i.rvalid && LegalInput(bus, i)
    requires Carried(bus, h.received, h.pushed)
    ensures var h' := Receive(bus, d, i, h); Carried(bus, h'.received, h'.pushed)
  {
  }

  lemma FramedLength(bus: Bus, ops: seq<Descriptor>, n: nat, j: nat, marks: seq<Mark>)
    requires bus.Valid() && LegalOps(ops) && n <= |ops| && Framed(bus, ops, n, j, marks)
    ensures |marks| == |Marks(bus, ops[..n])| + j
  {
  }

  /** The data machine's registers after a received beat. */
  lemma ReceiveNext(bus: Bus, d: DataSide, cmd: Command, cmdValid: bool, i: Input, ready: bool)
    requires bus.Valid() && d.reading && d.rready && i.rvalid && d.inputActive && d.outputActive
    ensures var d' := NextData(bus, d, cmd, cmdValid, i, ready);
            && d'.reading == !d.outputLast
            && d'.rresp == (if d.outputLast then Okay else NextResp(d, i))
            && d'.outCount == d.outCount - 1
  {
  }

  /** What a received beat leaves of the frame and of the reports, before a frame's end is noted. */
  lemma ReceiveExtends(bus: Bus, d: DataSide, h: History, i: Input, n: nat)
    requires bus.Valid() && LegalOps(h.ops) && n < |h.ops| && d.reading && d.rready && i.rvalid
    requires ReadingInv(bus, d, h.ops[n], Position(bus, d, h.ops[n]))
    requires Framed(bus, h.ops, n, Position(bus, d, h.ops[n]), MarksOf(h.pushed))
    requires Reported(bus, h.ops, n, d.rresp, h.received, h.reports)
    ensures Framed(bus, h.ops, n, Position(bus, d, h.ops[n]) + 1, MarksOf(Receive(bus, d, i, h).pushed))
    ensures Reported(bus, h.ops, n, NextResp(d, i), h.received + [i.r], h.reports)
  {
    ReceiveFrame(bus, d, h.ops[n], h, n, i);
    ReportedAppend(bus, h.ops, n, d.rresp, h.received, h.reports, i.r);
  }

  /** The parts of the data machine's invariant, put together. */
  lemma Assemble(bus: Bus, d: DataSide, cmd: Command, cmdValid: bool, h: History, n: nat, j: nat)
    requires bus.Valid() && Control(bus, d, cmd, cmdValid, h) && Carried(bus, h.received, h.pushed)
    requires n == Finished(d, cmdValid, h) && j == if d.reading then Position(bus, d, h.ops[n]) else 0
    requires Framed(bus, h.ops, n, j, MarksOf(h.pushed))
    requires Reported(bus, h.ops, n, d.rresp, h.received, h.reports)
    ensures DataInv(bus, d, cmd, cmdValid, h)
  {
  }

  /** A received beat inside a frame. */
  lemma ReceiveInner(bus: Bus, d: DataSide, cmd: Command, cmdValid: bool, h: History, i: Input, ready: bool)
    requires bus.Valid() && DataInv(bus, d, cmd, cmdValid, h) && LegalInput(bus, i)
    requires d.rready && i.rvalid && !d.outputLast
    ensures DataInv(bus, NextData(bus, d, cmd, cmdValid, i, ready), cmd, cmdValid, Receive(bus, d, i, h))
  {
    var n := Finished(d, cmdValid, h);
    ReceiveControl(bus, d, cmd, cmdValid, h, i, ready);
    ReceiveNext(bus, d, cmd, cmdValid, i, ready);
    ReceiveCarried(bus, d, h, i);
    ReceiveExtends(bus, d, h, i, n);
    Assemble(bus, NextData(bus, d, cmd, cmdValid, i, ready), cmd, cmdValid, Receive(bus, d, i, h), n,
             Position(bus, d, h.ops[n]) + 1);
  }

  /** A frame that is complete is counted and reported. */
  lemma EndFrame(bus: Bus, ops: seq<Descriptor>, n: nat, rresp: Resp, received: seq<ReadBeat>, reports: seq<Report>,
                 marks: seq<Mark>)
    requires bus.Valid() && LegalOps(ops) && n < |ops| && |received| == |marks|
    requires Framed(bus, ops, n, bus.Beats(ops[n].len), marks)
    requires Reported(bus, ops, n, rresp, received, reports)
    ensures Framed(bus, ops, n + 1, 0, marks)
    ensures Reported(bus, ops, n + 1, Okay, received, reports + [Report(ops[n].tag, ReadErrorOf(rresp))])
  {
    FramedLength(bus, ops, n, bus.Beats(ops[n].len), marks);
    FrameEnds(bus, ops, n, marks);
    ReportedEnds(bus, ops, n, rresp, received, reports);
  }

  lemma ReceiveEnds(bus: Bus, d: DataSide, h: History, i: Input, n: nat)
    requires bus.Valid() && LegalOps(h.ops) && n < |h.ops| && d.reading && d.rready && i.rvalid && d.outputLast
    requires ReadingInv(bus, d, h.ops[n], Position(bus, d, h.ops[n])) && |h.received| == |h.pushed|
    requires Framed(bus, h.ops, n, Position(bus, d, h.ops[n]), MarksOf(h.pushed))
    requires Reported(bus, h.ops, n, d.rresp, h.received, h.reports)
    ensures var h' := Receive(bus, d, i, h);
            && Framed(bus, h.ops, n + 1, 0, MarksOf(h'.pushed))
            && Reported(bus, h.ops, n + 1, Okay, h'.received, h'.reports)
  {
    ReceiveExtends(bus, d, h, i, n);
    EndFrame(bus, h.ops, n, NextResp(d, i), h.received + [i.r], h.reports, MarksOf(Receive(bus, d, i, h).pushed));
  }

  /** The received beat that ends a frame. */
  lemma ReceiveLast(bus: Bus, d: DataSide, cmd: Command, cmdValid: bool, h: History, i: Input, ready: bool)
    requires bus.Valid() && DataInv(bus, d, cmd, cmdValid, h) && LegalInput(bus, i)
    requires d.rready && i.rvalid && d.outputLast
    ensures DataInv(bus, NextData(bus, d, cmd, cmdValid, i, ready), cmd, cmdValid, Receive(bus, d, i, h))
  {
    var n := Finished(d, cmdValid, h);
    ReceiveControl(bus, d, cmd, cmdValid, h, i, ready);
    ReceiveNext(bus, d, cmd, cmdValid, i, ready);
    ReceiveCarried(bus, d, h, i);
    ReceiveEnds(bus, d, h, i, n);
    Assemble(bus, NextData(bus, d, cmd, cmdValid, i, ready), cmd, cmdValid, Receive(bus, d, i, h), n + 1, 0);
  }

  /** The data machine takes the pending command. */
  lemma TakeCommand(bus: Bus, d: DataSide, cmd: Command, h: History, i: Input, ready: bool)
    requires bus.Valid() && DataInv(bus, d, cmd, true, h) && !d.reading
    ensures DataInv(bus, NextData(bus, d, cmd, true, i, ready), cmd, false, h)
  {
    var n := Finished(d, true, h);
    assert FrameMarks(bus, h.ops[n].len)[..0] == [];
  }

  /** The address machine posts a new command. */
  lemma PostCommand(bus: Bus, d: DataSide, cmd: Command, h: History, i: Input)
    requires bus.Valid() && DataInv(bus, d, cmd, false, h) && LegalInput(bus, i) && i.descValid
    ensures var cycles := (i.desc.len - 1) / bus.width;
            DataInv(bus, d, Command(i.desc.len % bus.width, cycles, cycles, i.desc.tag), true,
                    h.(ops := h.ops + [i.desc]))
  {
    var n := Finished(d, false, h);
    assert (h.ops + [i.desc])[..n] == h.ops[..n];
  }

  /** The data machine, in a cycle in which no new command is posted. */
  lemma DataMachineStep(bus: Bus, d: DataSide, cmd: Command, cmdValid: bool, h: History, i: Input, ready: bool)
    requires bus.Valid() && DataInv(bus, d, cmd, cmdValid, h) && LegalInput(bus, i)
    ensures DataInv(bus, NextData(bus, d, cmd, cmdValid, i, ready), cmd, cmdValid && d.reading,
                    if d.rready && i.rvalid then Receive(bus, d, i, h) else h)
  {
    if d.rready && i.rvalid && d.outputLast {
      ReceiveLast(bus, d, cmd, cmdValid, h, i, ready);
    } else if d.rready && i.rvalid {
      ReceiveInner(bus, d, cmd, cmdValid, h, i, ready);
    } else if !d.reading && cmdValid {
      TakeCommand(bus, d, cmd, h, i, ready);
    }
  }

  /** The data machine's part of the history. */
  lemma RecordReceives(bus: Bus, e: Engine, i: Input, h: History)
    requires bus.Valid() && (e.a.starting ==> 0 < e.a.opCount)
    requires DataInv(bus, e.d, e.a.cmd, e.a.cmdValid, h)
    ensures var h1 := if e.d.rready && i.rvalid then Receive(bus, e.d, i, h) else h;
            Record(bus, e, i, h) == h1.(
              ops := if Accepts(e.a, i) then h.ops + [i.desc] else h.ops,
              bursts := Record(bus, e, i, h).bursts,
              delivered := Record(bus, e, i, h).delivered)
  {
  }

  /** The address machine's part of the command registers. */
  lemma NextCommand(bus: Bus, a: AddressSide, i: Input, cmdReady: bool)
    requires bus.Valid() && (a.starting ==> 0 < a.opCount) && (a.descReady ==> !a.starting && !a.cmdValid)
    ensures var a' := NextAddress(bus, a, i, cmdReady);
            if Accepts(a, i) then
              var cycles := (i.desc.len - 1) / bus.width;
              a'.cmdValid && a'.cmd == Command(i.desc.len % bus.width, cycles, cycles, i.desc.tag)
            else a'.cmd == a.cmd && a'.cmdValid == (a.cmdValid && !cmdReady)
  {
  }

  lemma DataInvFrame(bus: Bus, d: DataSide, cmd: Command, cmdValid: bool, h: History, bursts: seq<Burst>,
                     delivered: nat)
    requires bus.Valid() && DataInv(bus, d, cmd, cmdValid, h)
    ensures DataInv(bus, d, cmd, cmdValid, h.(bursts := bursts, delivered := delivered))
  {
  }

  /** The data machine's registers and history after a cycle, without the newly accepted descriptor. */
  ghost function Advanced(bus: Bus, e: Engine, i: Input, h: History): (h': History)
    requires bus.Valid() && (e.a.starting ==> 0 < e.a.opCount)
  {
    var r := Record(bus, e, i, h);
    (if e.d.rready && i.rvalid then Receive(bus, e.d, i, h) else h).(bursts := r.bursts, delivered := r.delivered)
  }

  lemma AdvancedInv(bus: Bus, e: Engine, i: Input, h: History)
    requires bus.Valid() && (e.a.starting ==> 0 < e.a.opCount) && LegalInput(bus, i)
    requires DataInv(bus, e.d, e.a.cmd, e.a.cmdValid, h)
    ensures DataInv(bus, NextData(bus, e.d, e.a.cmd, e.a.cmdValid, i, !e.out.halfFull), e.a.cmd,
                    e.a.cmdValid && e.d.reading, Advanced(bus, e, i, h))
    ensures Record(bus, e, i, h)
         == Advanced(bus, e, i, h).(ops := if Accepts(e.a, i) then h.ops + [i.desc] else h.ops)
    ensures Advanced(bus, e, i, h).ops == h.ops
  {
    var ready := !e.out.halfFull;
    var h1 := if e.d.rready && i.rvalid then Receive(bus, e.d, i, h) else h;
    var r := Record(bus, e, i, h);
    DataMachineStep(bus, e.d, e.a.cmd, e.a.cmdValid, h, i, ready);
    RecordReceives(bus, e, i, h);
    DataInvFrame(bus, NextData(bus, e.d, e.a.cmd, e.a.cmdValid, i, ready), e.a.cmd,
                 e.a.cmdValid && e.d.reading, h1, r.bursts, r.delivered);
  }

  lemma DataStep(bus: Bus, e: Engine, i: Input, h: History)
    requires bus.Valid() && (e.a.starting ==> 0 < e.a.opCount) && LegalInput(bus, i)
    requires e.a.descReady ==> !e.a.starting && !e.a.cmdValid
    requires DataInv(bus, e.d, e.a.cmd, e.a.cmdValid, h) && e.out.ring.Valid()
    ensures var e', h' := Next(bus, e, i), Record(bus, e, i, h);
            DataInv(bus, e'.d, e'.a.cmd, e'.a.cmdValid, h')
  {
    AdvancedInv(bus, e, i, h);
    NextCommand(bus, e.a, i, !e.d.reading && e.a.cmdValid);
    if Accepts(e.a, i) {
      var d' := NextData(bus, e.d, e.a.cmd, e.a.cmdValid, i, !e.out.halfFull);
      PostCommand(bus, d', e.a.cmd, Advanced(bus, e, i, h), i);
    }
  }

  lemma StageStep(bus: Bus, e: Engine, i: Input, h: History)
    requires bus.Valid() && (e.a.starting ==> 0 < e.a.opCount)
    requires (e.d.reading ==> e.d.inputActive) && (e.d.rready ==> e.d.reading)
    requires e.out.Represents(h.pushed, h.delivered) && e.out.Throttled(e.d.rready)
    ensures var e', h' := Next(bus, e, i), Record(bus, e, i, h);
            e'.out.Represents(h'.pushed, h'.delivered) && e'.out.Throttled(e'.d.rready)
    ensures Pushes(bus, e.d, i).Some? ==> !e.out.ring.Full()
  {
    var push := Pushes(bus, e.d, i);
    var e' := Next(bus, e, i);
    StageStaysThrottled(e.out, h.pushed, h.delivered, push, i.tready, e.d.rready, e'.d.rready);
    StageKeepsOrder(e.out, h.pushed, h.delivered, push, i.tready);
  }

  /** One clock edge keeps the invariant, whatever the environment does. */
  lemma InvStep(bus: Bus, e: Engine, i: Input, h: History)
    requires bus.Valid() && Inv(bus, e, h) && LegalInput(bus, i)
    ensures Inv(bus, Next(bus, e, i), Record(bus, e, i, h))
  {
    AddressStep(bus, e, i, h);
    DataStep(bus, e, i, h);
    StageStep(bus, e, i, h);
  }

  // ---------------------------------------------------------------------------------------------
  // Runs
  // ---------------------------------------------------------------------------------------------

  ghost predicate LegalRun(bus: Bus, inputs: seq<Input>)
    requires bus.Valid()
  {
    forall k :: 0 <= k < |inputs| ==> LegalInput(bus, inputs[k])
  }

  /** The engine after the given cycles, with the history of its interfaces. */
  ghost function Run(bus: Bus, start: Engine, inputs: seq<Input>): (r: (Engine, History))
    requires bus.Valid() && Reset(bus, start) && LegalRun(bus, inputs)
    ensures Sound(r.0)
  {
    if inputs == [] then (start, EMPTY)
    else
      var (e, h) := Run(bus, start, inputs[..|inputs| - 1]);
      var i := inputs[|inputs| - 1];
      SoundStep(bus, e, i);
      (Next(bus, e, i), Record(bus, e, i, h))
  }

  /** What a step needs to be defined. */
  ghost predicate Sound(e: Engine) { e.out.ring.Valid() && (e.a.starting ==> 0 < e.a.opCount) }

  lemma SoundStep(bus: Bus, e: Engine, i: Input)
    requires bus.Valid() && Sound(e) && (i.descValid ==> 0 < i.desc.len)
    ensures Sound(Next(bus, e, i))
  {
  }

  lemma {:induction false} RunKeepsInv(bus: Bus, start: Engine, inputs: seq<Input>)
    requires bus.Valid() && Reset(bus, start) && LegalRun(bus, inputs)
    ensures Inv(bus, Run(bus, start, inputs).0, Run(bus, start, inputs).1)
  {
    if inputs == [] {
      InvInit(bus, start);
    } else {
      var n := |inputs| - 1;
      RunKeepsInv(bus, start, inputs[..n]);
      var (e, h) := Run(bus, start, inputs[..n]);
      InvStep(bus, e, inputs[n], h);
    }
  }

  /** Both halves count alike: the beats the data machine frames are the beats of the issued bursts. */
  lemma {:induction false} HalvesAgree(bus: Bus, ops: seq<Descriptor>)
    requires bus.Valid() && LegalOps(ops)
    ensures forall b <- Plans(bus, ops) :: 0 < b.bytes
    ensures |SlaveAddresses(bus, Plans(bus, ops))| == |Marks(bus, ops)|
  {
    if ops != [] {
      var op := ops[|ops| - 1];
      var earlier := ops[..|ops| - 1];
      HalvesAgree(bus, earlier);
      PlanBeats(bus, Aligned(bus, op.addr), op.len);
      SlaveAddressesConcat(bus, Plans(bus, earlier), Plan(bus, Aligned(bus, op.addr), op.len));
    }
  }

  /** The plans and frames of the last descriptor follow those of the earlier ones. */
  lemma LastDescriptor(bus: Bus, ops: seq<Descriptor>)
    requires bus.Valid() && LegalOps(ops) && ops != []
    ensures forall b <- Plans(bus, ops) :: 0 < b.bytes
    ensures var op, earlier := ops[|ops| - 1], ops[..|ops| - 1];
            && (forall b <- Plans(bus, earlier) :: 0 < b.bytes)
            && |SlaveAddresses(bus, Plans(bus, earlier))| == |Marks(bus, earlier)|
            && SlaveAddresses(bus, Plans(bus, ops))
            == SlaveAddresses(bus, Plans(bus, earlier)) + Steps(Aligned(bus, op.addr), bus.width, bus.Beats(op.len))
  {
    var op, earlier := ops[|ops| - 1], ops[..|ops| - 1];
    HalvesAgree(bus, earlier);
    PlanBeats(bus, Aligned(bus, op.addr), op.len);
    SlaveAddressesConcat(bus, Plans(bus, earlier), Plan(bus, Aligned(bus, op.addr), op.len));
  }

  /** The beat of the stream at `at` is read from `addr` and marked `mark`. */
  ghost predicate Located(bus: Bus, ops: seq<Descriptor>, at: nat, addr: nat, mark: Mark)
    requires bus.Valid() && LegalOps(ops)
  {
    && (forall b <- Plans(bus, ops) :: 0 < b.bytes)
    && at < |Marks(bus, ops)| == |SlaveAddresses(bus, Plans(bus, ops))|
    && SlaveAddresses(bus, Plans(bus, ops))[at] == addr
    && Marks(bus, ops)[at] == mark
  }

  /** The beats of the last descriptor come after all earlier ones. */
  lemma LastBeats(bus: Bus, ops: seq<Descriptor>, k: nat)
    requires bus.Valid() && LegalOps(ops) && ops != [] && k < bus.Beats(ops[|ops| - 1].len)
    ensures var n := |ops| - 1;
            Located(bus, ops, |Marks(bus, ops[..n])| + k,
                    Steps(Aligned(bus, ops[n].addr), bus.width, bus.Beats(ops[n].len))[k],
                    FrameMarks(bus, ops[n].len)[k])
  {
    LastDescriptor(bus, ops);
  }

  /** A later descriptor does not move the beats of the earlier ones. */
  lemma LaterDescriptor(bus: Bus, ops: seq<Descriptor>, at: nat, addr: nat, mark: Mark)
    requires bus.Valid() && LegalOps(ops) && ops != [] && Located(bus, ops[..|ops| - 1], at, addr, mark)
    ensures Located(bus, ops, at, addr, mark)
  {
    LastDescriptor(bus, ops);
  }

  /** Where the `k`-th beat of descriptor `n` is read from, and how it is marked. */
  lemma {:induction false} BeatAddress(bus: Bus, ops: seq<Descriptor>, n: nat, k: nat)
    requires bus.Valid() && LegalOps(ops) && n < |ops| && k < bus.Beats(ops[n].len)
    ensures Located(bus, ops, |Marks(bus, ops[..n])| + k,
                    Steps(Aligned(bus, ops[n].addr), bus.width, bus.Beats(ops[n].len))[k],
                    FrameMarks(bus, ops[n].len)[k])
  {
    if n < |ops| - 1 {
      var earlier := ops[..|ops| - 1];
      assert earlier[..n] == ops[..n] && earlier[n] == ops[n];
      BeatAddress(bus, earlier, n, k);
      LaterDescriptor(bus, ops, |Marks(bus, ops[..n])| + k,
                      Steps(Aligned(bus, ops[n].addr), bus.width, bus.Beats(ops[n].len))[k],
                      FrameMarks(bus, ops[n].len)[k]);
    } else {
      LastBeats(bus, ops, k);
    }
  }

  lemma FramedIsPrefix(bus: Bus, ops: seq<Descriptor>, n: nat, j: nat, marks: seq<Mark>)
    requires bus.Valid() && LegalOps(ops) && n <= |ops| && Framed(bus, ops, n, j, marks)
    ensures marks <= Marks(bus, ops)
  {
    MarksPrefix(bus, ops, n);
    if j != 0 {
      MarksPrefix(bus, ops, n + 1);
      assert ops[..n + 1][..n] == ops[..n];
      assert marks <= Marks(bus, ops[..n + 1]);
    }
  }

  /** The bursts so far and the stream so far are the beginning of what the descriptors ask for. */
  ghost predicate Serves(bus: Bus, h: History)
    requires bus.Valid()
  {
    && LegalOps(h.ops)
    && h.bursts <= Plans(bus, h.ops)
    && h.delivered <= |h.pushed|
    && Carried(bus, h.received, h.pushed)
    && MarksOf(h.pushed) <= Marks(bus, h.ops)
  }

  lemma InvServes(bus: Bus, e: Engine, h: History)
    requires bus.Valid() && Inv(bus, e, h)
    ensures Serves(bus, h)
  {
    var n := Finished(e.d, e.a.cmdValid, h);
    FramedIsPrefix(bus, h.ops, n, if e.d.reading then Position(bus, e.d, h.ops[n]) else 0, MarksOf(h.pushed));
  }

  /** Safety at any time in any run. */
  lemma ReadIsCorrect(bus: Bus, start: Engine, inputs: seq<Input>)
    requires bus.Valid() && Reset(bus, start) && LegalRun(bus, inputs)
    ensures Serves(bus, Run(bus, start, inputs).1)
  {
    RunKeepsInv(bus, start, inputs);
    InvServes(bus, Run(bus, start, inputs).0, Run(bus, start, inputs).1);
  }

  lemma {:induction false} MarksPrefix(bus: Bus, ops: seq<Descriptor>, n: nat)
    requires bus.Valid() && LegalOps(ops) && n <= |ops|
    ensures Marks(bus, ops[..n]) <= Marks(bus, ops)
  {
    if n == |ops| {
      assert ops[..n] == ops;
    } else {
      var earlier := ops[..|ops| - 1];
      assert earlier[..n] == ops[..n];
      MarksPrefix(bus, earlier, n);
    }
  }

  /** A full beat in the middle of a frame. */
  ghost predicate FullBeatFrom(w: nat, memory: seq<Byte>, addr: nat, b: Beat) {
    |b.data| == w && b.keep == Mask(w, w) && !b.last && ReadsFrom(memory, addr, b.data)
  }

  lemma KeptFromMemory(w: nat, memory: seq<Byte>, addr: nat, b: Beat, k: nat)
    requires |b.data| == w && k <= w && b.keep == Mask(w, k) && ReadsFrom(memory, addr, b.data)
    ensures addr + w <= |memory| && Kept(b) == memory[addr..addr + k]
  {
    LeadOfMask(w, k);
  }

  lemma AppendFromMemory(w: nat, memory: seq<Byte>, base: nat, from: nat, beats: seq<Beat>, b: Beat, k: nat)
    requires base <= from <= |memory| && Split(beats) == Frames([], memory[base..from])
    requires |b.data| == w && k <= w && b.keep == Mask(w, k) && ReadsFrom(memory, from, b.data)
    ensures from + w <= |memory|
    ensures Split(beats + [b]) == if b.last then Frames([memory[base..from + k]], [])
            else Frames([], memory[base..from + k])
  {
    KeptFromMemory(w, memory, from, b, k);
    SplitAppend(beats, b);
    SliceConcat(memory, base, from, from + k);
  }

  lemma {:induction false} FullBeats(w: nat, addrs: seq<nat>, beats: seq<Beat>, memory: seq<Byte>)
    requires |addrs| == |beats| + 1 && addrs[0] <= |memory|
    requires forall k :: 0 <= k < |beats| ==> addrs[k + 1] == addrs[k] + w
    requires forall k :: 0 <= k < |beats| ==> FullBeatFrom(w, memory, addrs[k], beats[k])
    ensures addrs[0] <= addrs[|beats|] <= |memory|
    ensures Split(beats) == Frames([], memory[addrs[0]..addrs[|beats|]])
  {
    if beats == [] {
      assert memory[addrs[0]..addrs[0]] == [];
    } else {
      var m := |beats| - 1;
      FullBeats(w, addrs[..m + 1], beats[..m], memory);
      assert FullBeatFrom(w, memory, addrs[m], beats[m]);
      AppendFromMemory(w, memory, addrs[0], addrs[m], beats[..m], beats[m], w);
      assert beats == beats[..m] + [beats[m]];
    }
  }

  lemma StepsAdvance(addr: nat, width: nat, n: nat)
    ensures forall k :: 0 <= k < n - 1 ==> Steps(addr, width, n)[k + 1] == Steps(addr, width, n)[k] + width
  {
    forall k | 0 <= k < n - 1
      ensures Steps(addr, width, n)[k + 1] == Steps(addr, width, n)[k] + width
    {
      assert (k + 1) * width == k * width + width;
    }
  }

  /** A frame of full beats and a final beat with `tail` bytes. */
  lemma WholeFrame(w: nat, addrs: seq<nat>, beats: seq<Beat>, tail: nat, memory: seq<Byte>)
    requires |addrs| == |beats| != 0 && tail <= w
    requires forall k :: 0 <= k < |beats| - 1 ==> addrs[k + 1] == addrs[k] + w
    requires forall k :: 0 <= k < |beats| - 1 ==> FullBeatFrom(w, memory, addrs[k], beats[k])
    requires var b := beats[|beats| - 1];
             |b.data| == w && b.keep == Mask(w, tail) && b.last && ReadsFrom(memory, addrs[|beats| - 1], b.data)
    ensures addrs[0] <= addrs[|beats| - 1] && addrs[|beats| - 1] + tail <= |memory|
    ensures Split(beats) == Frames([memory[addrs[0]..addrs[|beats| - 1] + tail]], [])
  {
    var m := |beats| - 1;
    assert addrs[0] <= |memory| by {
      if 0 < m {
        assert FullBeatFrom(w, memory, addrs[0], beats[0]);
      }
    }
    FullBeats(w, addrs, beats[..m], memory);
    AppendFromMemory(w, memory, addrs[0], addrs[m], beats[..m], beats[m], tail);
    assert beats == beats[..m] + [beats[m]];
  }

  /** The beats of one descriptor carry exactly its bytes of memory, and end with the only tlast. */
  lemma FrameIsMemory(bus: Bus, op: Descriptor, beats: seq<Beat>, memory: seq<Byte>)
    requires bus.Valid() && 0 < op.len && |beats| == bus.Beats(op.len)
    requires MarksOf(beats) == FrameMarks(bus, op.len)
    requires var addrs := Steps(Aligned(bus, op.addr), bus.width, bus.Beats(op.len));
             forall k :: 0 <= k < |beats| ==> |beats[k].data| == bus.width && ReadsFrom(memory, addrs[k], beats[k].data)
    ensures Aligned(bus, op.addr) + op.len <= |memory|
    ensures Split(beats) == Frames([memory[Aligned(bus, op.addr)..Aligned(bus, op.addr) + op.len]], [])
  {
    var base, w, m := Aligned(bus, op.addr), bus.width, |beats| - 1;
    var addrs := Steps(base, w, m + 1);
    var tail := op.len - m * w;
    MarkedBeats(bus, op, beats);
    StepsAdvance(base, w, m + 1);
    WholeFrame(w, addrs, beats, tail, memory);
    assert addrs[0] == base && addrs[m] + tail == base + op.len;
  }

  lemma MarkedBeats(bus: Bus, op: Descriptor, beats: seq<Beat>)
    requires bus.Valid() && 0 < op.len && |beats| == bus.Beats(op.len)
    requires MarksOf(beats) == FrameMarks(bus, op.len)
    ensures var w, m := bus.width, |beats| - 1;
            && (forall k :: 0 <= k < m ==> beats[k].keep == Mask(w, w) && !beats[k].last)
            && 0 <= op.len - m * w <= w
            && beats[m].keep == Mask(w, op.len - m * w) && beats[m].last
  {
    var marks := FrameMarks(bus, op.len);
    LastBeatBytes(bus, op.len);
    forall k | 0 <= k < |beats|
      ensures beats[k].keep == marks[k].keep && beats[k].last == marks[k].last
    {
      assert MarksOf(beats)[k] == marks[k];
    }
  }

  /** The address a slave reads for each beat of the stream. */
  ghost function Sources(bus: Bus, ops: seq<Descriptor>): (addrs: seq<nat>)
    requires bus.Valid() && LegalOps(ops)
    ensures |addrs| == |Marks(bus, ops)|
  {
    HalvesAgree(bus, ops);
    SlaveAddresses(bus, Plans(bus, ops))
  }

  /** The beats of descriptor `n` in the stream. */
  ghost function FrameOf(bus: Bus, h: History, n: nat): (beats: seq<Beat>)
    requires bus.Valid() && LegalOps(h.ops) && n < |h.ops|
    requires FrameIsOut(bus, h, n)
  {
    var from := |Marks(bus, h.ops[..n])|;
    h.pushed[from..from + bus.Beats(h.ops[n].len)]
  }

  /** The slave of this run returns the contents of `memory`. */
  ghost predicate SlaveReturns(bus: Bus, h: History, memory: seq<Byte>)
    requires bus.Valid() && LegalOps(h.ops)
  {
    && |h.received| <= |Sources(bus, h.ops)|
    && (forall k :: 0 <= k < |h.received| ==> ReadsFrom(memory, Sources(bus, h.ops)[k], h.received[k].data))
  }

  /** The frame of descriptor `n` has been handed to the output stage. */
  ghost predicate FrameIsOut(bus: Bus, h: History, n: nat)
    requires bus.Valid() && LegalOps(h.ops) && n < |h.ops|
  {
    |Marks(bus, h.ops[..n])| + bus.Beats(h.ops[n].len) <= |h.pushed|
  }

  lemma BeatFromSource(bus: Bus, h: History, memory: seq<Byte>, n: nat, k: nat)
    requires bus.Valid() && LegalOps(h.ops) && n < |h.ops| && k < bus.Beats(h.ops[n].len)
    requires Carried(bus, h.received, h.pushed) && MarksOf(h.pushed) <= Marks(bus, h.ops)
    requires FrameIsOut(bus, h, n) && SlaveReturns(bus, h, memory)
    ensures var b := h.pushed[|Marks(bus, h.ops[..n])| + k];
            && Mark(b.keep, b.last) == FrameMarks(bus, h.ops[n].len)[k]
            && |b.data| == bus.width
            && ReadsFrom(memory, Steps(Aligned(bus, h.ops[n].addr), bus.width, bus.Beats(h.ops[n].len))[k], b.data)
  {
    var at := |Marks(bus, h.ops[..n])| + k;
    var b := h.pushed[at];
    BeatAddress(bus, h.ops, n, k);
    assert Mark(b.keep, b.last) == Marks(bus, h.ops)[at] by {
      assert MarksOf(h.pushed)[at] == Marks(bus, h.ops)[at];
    }
    assert ReadsFrom(memory, Sources(bus, h.ops)[at], b.data) by {
      assert h.received[at].data == b.data;
    }
  }

  lemma FrameFromSources(bus: Bus, h: History, memory: seq<Byte>, n: nat)
    requires bus.Valid() && LegalOps(h.ops) && n < |h.ops|
    requires Carried(bus, h.received, h.pushed) && MarksOf(h.pushed) <= Marks(bus, h.ops)
    requires FrameIsOut(bus, h, n) && SlaveReturns(bus, h, memory)
    ensures var base := Aligned(bus, h.ops[n].addr);
            && base + h.ops[n].len <= |memory|
            && Split(FrameOf(bus, h, n)) == Frames([memory[base..base + h.ops[n].len]], [])
  {
    var op, beats := h.ops[n], FrameOf(bus, h, n);
    var marks := FrameMarks(bus, op.len);
    var addrs := Steps(Aligned(bus, op.addr), bus.width, bus.Beats(op.len));
    forall k | 0 <= k < |beats|
      ensures MarksOf(beats)[k] == marks[k]
      ensures |beats[k].data| == bus.width
      ensures ReadsFrom(memory, addrs[k], beats[k].data)
    {
      BeatFromSource(bus, h, memory, n, k);
    }
    FrameIsMemory(bus, op, beats, memory);
  }

  /**
   In any run against a slave that returns the memory, every finished frame of the stream is exactly
   the bytes its descriptor names, with one tlast, at its end.
   */
  lemma ReadDeliversMemory(bus: Bus, start: Engine, inputs: seq<Input>, memory: seq<Byte>, h: History, n: nat)
    requires bus.Valid() && Reset(bus, start) && LegalRun(bus, inputs)
    requires h == Run(bus, start, inputs).1 && LegalOps(h.ops)
    requires SlaveReturns(bus, h, memory)
    requires n < |h.ops| && FrameIsOut(bus, h, n)
    ensures var base := Aligned(bus, h.ops[n].addr);
            && base + h.ops[n].len <= |memory|
            && Split(FrameOf(bus, h, n)) == Frames([memory[base..base + h.ops[n].len]], [])
  {
    ReadIsCorrect(bus, start, inputs);
    FrameFromSources(bus, h, memory, n);
  }

  /** No beat from `from` up to `to` failed. */
  ghost predicate Clean(received: seq<ReadBeat>, from: nat, to: nat) {
    to <= |received| && forall k :: from <= k < to ==> !IsError(received[k].resp)
  }

  /** The report for a descriptor whose beats start at `from`: NoError exactly when none of them failed. */
  ghost predicate Reflects(bus: Bus, op: Descriptor, received: seq<ReadBeat>, from: nat, r: Report)
    requires bus.Valid() && 0 < op.len
  {
    && r.tag == op.tag
    && from + bus.Beats(op.len) <= |received|
    && (r.error.NoError? <==> Clean(received, from, from + bus.Beats(op.len)))
  }

  /** Reports come in order, and one says NoError exactly when no beat of its descriptor failed. */
  lemma ReadReports(bus: Bus, start: Engine, inputs: seq<Input>, n: nat)
    requires bus.Valid() && Reset(bus, start) && LegalRun(bus, inputs)
    requires n < |Run(bus, start, inputs).1.reports|
    ensures var h := Run(bus, start, inputs).1;
            && LegalOps(h.ops) && n < |h.ops|
            && Reflects(bus, h.ops[n], h.received, |Marks(bus, h.ops[..n])|, h.reports[n])
  {
    var (e, h) := Run(bus, start, inputs);
    RunKeepsInv(bus, start, inputs);
    ReportedReflects(bus, h.ops, Finished(e.d, e.a.cmdValid, h), e.d.rresp, h.received, h.reports, n);
  }

  lemma ReportedReflects(bus: Bus, ops: seq<Descriptor>, done: nat, rresp: Resp, received: seq<ReadBeat>,
                         reports: seq<Report>, n: nat)
    requires bus.Valid() && LegalOps(ops) && done <= |ops| && Reported(bus, ops, done, rresp, received, reports)
    requires n < |reports|
    ensures n < done && Reflects(bus, ops[n], received, |Marks(bus, ops[..n])|, reports[n])
  {
    var total := |Marks(bus, ops[..done])|;
    ReportsLength(bus, ops[..done], received[..total]);
    ReportsAt(bus, ops[..done], received[..total], n);
    assert ops[..done][..n] == ops[..n];
    ReflectsLonger(bus, ops[n], received, total, |Marks(bus, ops[..n])|, reports[n]);
  }

  lemma ReflectsLonger(bus: Bus, op: Descriptor, received: seq<ReadBeat>, m: nat, from: nat, r: Report)
    requires bus.Valid() && 0 < op.len && m <= |received| && Reflects(bus, op, received[..m], from, r)
    ensures Reflects(bus, op, received, from, r)
  {
    var to := from + bus.Beats(op.len);
    assert forall k :: from <= k < to ==> received[..m][k] == received[k];
    assert Clean(received[..m], from, to) <==> Clean(received, from, to);
  }

  lemma NoErrorIff(beats: seq<ReadBeat>)
    ensures ReadErrorOf(Worst(RespsOf(beats))).NoError? <==> Clean(beats, 0, |beats|)
  {
    var resps := RespsOf(beats);
    if IsError(Worst(resps)) {
      var k :| 0 <= k < |resps| && IsError(resps[k]);
      assert IsError(beats[k].resp);
    } else {
      assert forall k :: 0 <= k < |beats| ==> resps[k] == beats[k].resp;
    }
  }

  lemma CleanFrom(received: seq<ReadBeat>, from: nat)
    requires from <= |received|
    ensures Clean(received[from..], 0, |received| - from) <==> Clean(received, from, |received|)
  {
    var tail := received[from..];
    assert forall k :: from <= k < |received| ==> received[k] == tail[k - from];
    assert forall k :: 0 <= k < |tail| ==> tail[k] == received[k + from];
  }

  lemma {:induction false} ReportsAt(bus: Bus, ops: seq<Descriptor>, received: seq<ReadBeat>, n: nat)
    requires bus.Valid() && LegalOps(ops) && |received| == |Marks(bus, ops)| && n < |ops|
    ensures |Reports(bus, ops, received)| == |ops|
    ensures Reflects(bus, ops[n], received, |Marks(bus, ops[..n])|, Reports(bus, ops, received)[n])
  {
    var earlier := ops[..|ops| - 1];
    var from := |Marks(bus, earlier)|;
    ReportsLength(bus, earlier, received[..from]);
    if n < |earlier| {
      ReportsAt(bus, earlier, received[..from], n);
      assert earlier[..n] == ops[..n];
      ReflectsLonger(bus, ops[n], received, from, |Marks(bus, ops[..n])|, Reports(bus, earlier, received[..from])[n]);
    } else {
      NoErrorIff(received[from..]);
      CleanFrom(received, from);
    }
  }

  lemma {:induction false} ReportsLength(bus: Bus, ops: seq<Descriptor>, received: seq<ReadBeat>)
    requires bus.Valid() && LegalOps(ops) && |received| == |Marks(bus, ops)|
    ensures |Reports(bus, ops, received)| == |ops|
  {
    if ops != [] {
      var earlier := ops[..|ops| - 1];
      ReportsLength(bus, earlier, received[..|Marks(bus, earlier)|]);
    }
  }

  lemma RunAppend(bus: Bus, start: Engine, inputs: seq<Input>, i: Input)
    requires bus.Valid() && Reset(bus, start) && LegalRun(bus, inputs) && LegalInput(bus, i)
    ensures LegalRun(bus, inputs + [i])
    ensures var (e, h) := Run(bus, start, inputs);
            Run(bus, start, inputs + [i]) == (Next(bus, e, i), Record(bus, e, i, h))
  {
    assert (inputs + [i])[..|inputs|] == inputs;
  }

  /** The engine's registers, updated together at each clock edge; `inputs` are the cycles since reset. */
  class ReadEngine {
    const bus: Bus
    var a: AddressSide
    var d: DataSide
    const out: OutputStage<Beat>
    ghost const start: Engine
    ghost var inputs: seq<Input>

    ghost function State(): Engine
      reads this, out, out.slots
    {
      Engine(a, d, out.State())
    }

    /** The registers are those of a run from reset. */
    ghost predicate Valid()
      reads this, out, out.slots
    {
      && bus.Valid() && out.Valid() && Reset(bus, start) && LegalRun(bus, inputs)
      && State() == Run(bus, start, inputs).0
    }

    constructor (bus: Bus, a: AddressSide, d: DataSide)
      requires bus.Valid() && !a.starting && !a.cmdValid && !a.descReady && !a.arvalid
      requires !d.reading && !d.rready && d.rresp == Okay && !d.reportValid
      ensures this.bus == bus && Valid() && fresh(out) && fresh(out.slots)
      ensures State() == start && inputs == []
    {
      this.bus, this.a, this.d, this.inputs := bus, a, d, [];
      var stage := new OutputStage();
      out := stage;
      start := Engine(a, d, stage.State());
    }

    /** The registers, updated together. */
    method Edge(i: Input)
      requires bus.Valid() && out.Valid() && (a.starting ==> 0 < a.opCount)
      modifies `a, `d, out, out.slots
      ensures out.Valid() && out.slots == old(out.slots)
      ensures State() == Next(bus, old(State()), i)
    {
      var cmd, cmdValid, push := a.cmd, a.cmdValid, Pushes(bus, d, i);
      a := NextAddress(bus, a, i, !d.reading && a.cmdValid);
      d := NextData(bus, d, cmd, cmdValid, i, !out.halfFull);
      out.Clock(push, i.tready);
    }

    /** After every cycle, the bursts and the stream since reset are what the descriptors ask for. */
    method Clock(i: Input)
      requires Valid() && LegalInput(bus, i)
      modifies this, out, out.slots
      ensures Valid() && out.slots == old(out.slots) && inputs == old(inputs) + [i]
      ensures Serves(bus, Run(bus, start, inputs).1)
    {
      RunAppend(bus, start, inputs, i);
      Edge(i);
      inputs := inputs + [i];
      ReadIsCorrect(bus, start, inputs);
    }
  }
}
