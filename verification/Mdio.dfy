/** The MDIO master, cycle by cycle: management frames shifted out, and read data shifted in, at a prescaled clock. */
module Mdio {
  import opened Options

  /** A management command: a two-bit opcode, two five-bit addresses and sixteen bits of data. */
  datatype Command = Command(opcode: nat, phy: nat, reg: nat, data: nat) {
    ghost predicate Valid() { opcode < 4 && phy < 32 && reg < 32 && data < 0x1_0000 }

    /** Opcodes 10 and 11 read. */
    predicate Reads() { opcode == 2 || opcode == 3 }
  }

  /** The low `n` bits of a number, most significant first. */
  function Bits(x: nat, n: nat): (bits: seq<bool>)
    ensures |bits| == n
  {
    if n == 0 then [] else Bits(x / 2, n - 1) + [x % 2 == 1]
  }

  function Value(bits: seq<bool>): (x: nat) {
    if bits == [] then 0 else 2 * Value(bits[..|bits| - 1]) + if bits[|bits| - 1] then 1 else 0
  }

  function Power(n: nat): nat { if n == 0 then 1 else 2 * Power(n - 1) }

  lemma {:induction false} ValueOfBits(x: nat, n: nat)
    requires x < Power(n)
    ensures Value(Bits(x, n)) == x
  {
    if n != 0 {
      ValueOfBits(x / 2, n - 1);
      assert Bits(x, n)[..n - 1] == Bits(x / 2, n - 1);
    }
  }

  /** Start, opcode, addresses, turnaround and data: section 22.2.4.5 of IEEE 802.3. */
  function Frame(c: Command): (bits: seq<bool>)
    ensures |bits| == 32
  {
    [false, true] + Bits(c.opcode, 2) + Bits(c.phy, 5) + Bits(c.reg, 5) + [true, false] + Bits(c.data, 16)
  }

  /** What is loaded for a command: its frame, and whether it reads. */
  datatype Load = Load(frame: seq<bool>, isRead: bool) {
    ghost predicate Valid() { |frame| == 32 }
  }

  function LoadOf(c: Command): (l: Load)
    ensures l.Valid()
  {
    Load(Frame(c), c.Reads())
  }

  lemma Powers()
    ensures Power(2) == 4 && Power(5) == 32 && Power(16) == 0x1_0000
  {
    assert Power(8) == 256;
    assert Power(12) == 4096;
  }

  datatype State = Idle | Preamble | Transfer

  datatype Master = Master(
    state: State,
    count: nat,
    bitCount: nat,
    cycle: bool,
    data: seq<bool>,
    reading: bool,
    cmdReady: bool,
    dataOut: seq<bool>,
    dataOutValid: bool,
    sampled: bool,
    mdc: bool,
    line: bool,
    released: bool)

  /** One cycle: the command interface, the data consumer, the line, and the prescaler, which may change at any time. */
  datatype Input = Input(cmdValid: bool, cmd: Load, dataReady: bool, mdio: bool, prescale: nat)

  ghost predicate LegalInput(i: Input) { i.cmd.Valid() && i.prescale < 256 }

  predicate Accepts(m: Master, i: Input) {
    m.state.Idle? && m.count == 0 && !m.cycle && m.cmdReady && i.cmdValid
  }

  /** A bit goes out of the shift register and the sampled line goes in. */
  predicate Shifts(m: Master) {
    m.count == 0 && !m.cycle && ((m.state.Preamble? && m.bitCount <= 1) || (m.state.Transfer? && m.bitCount > 1))
  }

  predicate Finishes(m: Master) { m.count == 0 && !m.cycle && m.state.Transfer? && m.bitCount <= 1 }

  /** The registers that do not wait for the prescaler. */
  function Tick(m: Master, i: Input): (m': Master) {
    m.(cmdReady := false, dataOutValid := m.dataOutValid && !i.dataReady, sampled := i.mdio)
  }

  function NextIdle(m: Master, i: Input): (m': Master) {
    if m.cmdReady && i.cmdValid then
      Tick(m, i).(
        mdc := false,
        data := i.cmd.frame,
        reading := i.cmd.isRead,
        released := false,
        line := true,
        bitCount := 32,
        cycle := true,
        count := i.prescale,
        state := Preamble)
    else
      Tick(m, i).(mdc := false, cmdReady := !m.dataOutValid)
  }

  function NextPreamble(m: Master, i: Input): (m': Master)
    requires |m.data| == 32
  {
    var next := Tick(m, i).(mdc := false, cycle := true, count := i.prescale);
    if m.bitCount > 1 then next.(bitCount := m.bitCount - 1)
    else next.(bitCount := 32, line := m.data[0], data := m.data[1..] + [m.sampled], state := Transfer)
  }

  function NextTransfer(m: Master, i: Input): (m': Master)
    requires |m.data| == 32
  {
    var next := Tick(m, i).(mdc := false, cycle := true, count := i.prescale);
    if m.bitCount > 1 then
      next.(
        bitCount := m.bitCount - 1,
        line := m.data[0],
        data := m.data[1..] + [m.sampled],
        released := m.released || (m.reading && m.bitCount == 19))
    else
      next.(
        dataOut := if m.reading then m.data[16..] else m.dataOut,
        dataOutValid := m.reading || next.dataOutValid,
        released := true,
        state := Idle)
  }

  function Next(m: Master, i: Input): (m': Master)
    requires |m.data| == 32 && i.cmd.Valid()
    ensures |m'.data| == 32
  {
    if m.count > 0 then Tick(m, i).(count := m.count - 1)
    else if m.cycle then Tick(m, i).(cycle := false, mdc := true, count := i.prescale)
    else
      match m.state
      case Idle => NextIdle(m, i)
      case Preamble => NextPreamble(m, i)
      case Transfer => NextTransfer(m, i)
  }

  ghost predicate Reset(m: Master) {
    m.state.Idle? && m.count == 0 && !m.cycle && |m.data| == 32 && !m.mdc && m.released
  }

  /** The line at a rising edge of the clock: driven, or released. */
  function Level(m: Master): Option<bool> { if m.released then None else Some(m.line) }

  /**
   Commands accepted; the line at each rising edge of the management clock; the line as sampled for the
   current command, with the number of edges before; and the words read.
   */
  datatype History = History(commands: seq<Load>, edges: seq<Option<bool>>, samples: seq<(nat, bool)>,
                             read: seq<seq<bool>>)

  function Record(m: Master, i: Input, h: History): History
    requires |m.data| == 32 && i.cmd.Valid()
  {
    var m' := Next(m, i);
    History(
      if Accepts(m, i) then h.commands + [i.cmd] else h.commands,
      if !m.mdc && m'.mdc then h.edges + [Level(m')] else h.edges,
      if Accepts(m, i) then [] else if Shifts(m) then h.samples + [(|h.edges|, m.sampled)] else h.samples,
      if Finishes(m) && m.reading then h.read + [m'.dataOut] else h.read)
  }

  const EMPTY := History([], [], [], [])

  // ---------------------------------------------------------------------------------------------
  // What goes over the line
  // ---------------------------------------------------------------------------------------------

  const EDGES := 65

  /**
   Thirty-two ones, the frame (of which a read drives the first fourteen bits), and one edge with the line released.
   */
  function Line(c: Load): (edges: seq<Option<bool>>)
    requires c.Valid()
    ensures |edges| == EDGES
  {
    seq(EDGES, k requires 0 <= k < EDGES =>
      if k < 32 then Some(true)
      else if k == 64 || (c.isRead && 46 <= k) then None
      else Some(c.frame[k - 32]))
  }

  ghost predicate ValidLoads(commands: seq<Load>) {
    forall k :: 0 <= k < |commands| ==> commands[k].Valid()
  }

  function Lines(commands: seq<Load>): (edges: seq<Option<bool>>)
    requires ValidLoads(commands)
    ensures |edges| == EDGES * |commands|
  {
    if commands == [] then [] else Lines(commands[..|commands| - 1]) + Line(commands[|commands| - 1])
  }

  /** A receiver finds the command again in its frame. */
  lemma FrameFields(c: Command)
    requires c.Valid()
    ensures var f := Frame(c);
            && Value(f[2..4]) == c.opcode && Value(f[4..9]) == c.phy && Value(f[9..14]) == c.reg
            && Value(f[16..]) == c.data
  {
    var f := Frame(c);
    Powers();
    assert f[2..4] == Bits(c.opcode, 2) && f[4..9] == Bits(c.phy, 5) && f[9..14] == Bits(c.reg, 5);
    assert f[16..] == Bits(c.data, 16);
    ValueOfBits(c.opcode, 2);
    ValueOfBits(c.phy, 5);
    ValueOfBits(c.reg, 5);
    ValueOfBits(c.data, 16);
  }

  /** The bits a device samples at these edges; a released line counts as zero. */
  function Sampled(edges: seq<Option<bool>>): (bits: seq<bool>)
    ensures |bits| == |edges|
  {
    seq(|edges|, k requires 0 <= k < |edges| => edges[k].Some? && edges[k].value)
  }

  /** The fields where section 22.2.4.5 of IEEE 802.3 puts them. */
  function Fields(frame: seq<bool>): (c: Command)
    requires |frame| == 32
  {
    Command(Value(frame[2..4]), Value(frame[4..9]), Value(frame[9..14]), Value(frame[16..]))
  }

  /** A device that skips the preamble and reads the fields. */
  function Understood(edges: seq<Option<bool>>): (c: Command)
    requires |edges| == EDGES
  {
    Fields(Sampled(edges[32..64]))
  }

  /** A device on the line, from the first edge on. */
  function Device(edges: seq<Option<bool>>): (commands: seq<Command>) {
    if |edges| < EDGES then []
    else
      var n := |edges| - EDGES;
      Device(edges[..n]) + [Understood(edges[n..])]
  }

  /** What the device is to make of a command: all of a write, and everything but data of a read. */
  ghost predicate Understands(c: Command, got: Command) {
    got.opcode == c.opcode && got.phy == c.phy && got.reg == c.reg && (!c.Reads() ==> got == c)
  }

  /** The device sees the driven part of the frame. */
  lemma DrivenIsSampled(l: Load)
    requires l.Valid()
    ensures var got := Sampled(Line(l)[32..64]);
            |got| == 32 && forall k :: 0 <= k < (if l.isRead then 14 else 32) ==> got[k] == l.frame[k]
  {
    var line := Line(l);
    assert forall k :: 0 <= k < 32 ==> line[32..64][k] == line[32 + k];
  }

  lemma SameSlice(a: seq<bool>, b: seq<bool>, i: nat, j: nat)
    requires i <= j <= |a| && j <= |b| && forall k :: i <= k < j ==> a[k] == b[k]
    ensures a[i..j] == b[i..j]
  {
  }

  lemma FieldsAgree(c: Command, got: seq<bool>)
    requires c.Valid() && |got| == 32
    requires forall k :: 0 <= k < (if c.Reads() then 14 else 32) ==> got[k] == Frame(c)[k]
    ensures Understands(c, Fields(got))
  {
    var f := Frame(c);
    FrameFields(c);
    SameSlice(got, f, 2, 4);
    SameSlice(got, f, 4, 9);
    SameSlice(got, f, 9, 14);
    if !c.Reads() {
      assert got == f;
    }
  }

  lemma LineIsUnderstood(c: Command)
    requires c.Valid()
    ensures Understands(c, Understood(Line(LoadOf(c))))
  {
    DrivenIsSampled(LoadOf(c));
    FieldsAgree(c, Sampled(Line(LoadOf(c))[32..64]));
  }

  function LoadsOf(commands: seq<Command>): (loads: seq<Load>)
    ensures |loads| == |commands| && ValidLoads(loads)
  {
    seq(|commands|, k requires 0 <= k < |commands| => LoadOf(commands[k]))
  }

  lemma DeviceAppend(before: seq<Option<bool>>, last: seq<Option<bool>>)
    requires |last| == EDGES
    ensures Device(before + last) == Device(before) + [Understood(last)]
  {
    assert (before + last)[..|before|] == before && (before + last)[|before|..] == last;
  }

  /** Round trip: a device on the line finds every command that was given to the master, in order. */
  lemma {:induction false} DeviceFindsCommands(commands: seq<Command>)
    requires forall k :: 0 <= k < |commands| ==> commands[k].Valid()
    ensures var got := Device(Lines(LoadsOf(commands)));
            |got| == |commands| && forall k :: 0 <= k < |commands| ==> Understands(commands[k], got[k])
  {
    if commands != [] {
      var n := |commands| - 1;
      DeviceFindsCommands(commands[..n]);
      LineIsUnderstood(commands[n]);
      DeviceAppend(Lines(LoadsOf(commands[..n])), Line(LoadOf(commands[n])));
      assert LoadsOf(commands)[..n] == LoadsOf(commands[..n]);
    }
  }

  /** Edges of the current command that are over. */
  function Progress(m: Master): int {
    var started := if m.cycle then 0 else 1;
    match m.state
    case Idle => 64 + started
    case Preamble => 32 - m.bitCount + started
    case Transfer => 64 - m.bitCount + started
  }

  /** The shift register: what is still to be driven, and behind it what has been sampled. */
  ghost predicate ShiftInv(m: Master, c: Load, samples: seq<(nat, bool)>)
    requires c.Valid()
  {
    var b := m.bitCount;
    && |m.data| == 32 && m.reading == c.isRead
    && match m.state
       case Idle => m.released
       case Preamble => 1 <= b <= 32 && !m.released && m.line && m.data == c.frame && samples == []
       case Transfer =>
         && 1 <= b <= 32
         && m.released == (c.isRead && b <= 18)
         && m.line == c.frame[32 - b]
         && (forall k :: 0 <= k < b - 1 ==> m.data[k] == c.frame[33 - b + k])
         && |samples| == 33 - b
         && (forall k :: 0 <= k < |samples| ==> m.data[b - 1 + k] == samples[k].1)
  }

  ghost predicate EdgeInv(m: Master, h: History) {
    && (m.cycle ==> !m.mdc) && ValidLoads(h.commands)
    && if h.commands == [] then m.state.Idle? && !m.cycle && h.edges == [] && h.samples == [] && |m.data| == 32
       && m.released
       else
         var n := |h.commands| - 1;
         && ShiftInv(m, h.commands[n], h.samples)
         && h.edges == Lines(h.commands[..n]) + Line(h.commands[n])[..Progress(m)]
         && (forall k :: 0 <= k < |h.samples| ==> h.samples[k].0 == EDGES * n + 32 + k)
  }

  /** On the clock's way up the line is what the frame has there. */
  lemma LevelIsLine(m: Master, c: Load, samples: seq<(nat, bool)>)
    requires c.Valid() && ShiftInv(m, c, samples) && m.cycle
    ensures 0 <= Progress(m) < EDGES && Level(m) == Line(c)[Progress(m)]
  {
  }

  lemma LineNext(before: seq<Option<bool>>, c: Load, p: nat)
    requires c.Valid() && p < EDGES
    ensures before + Line(c)[..p] + [Line(c)[p]] == before + Line(c)[..p + 1]
  {
  }

  /** A rising edge changes the clock and nothing else on the line. */
  lemma RisingIsRecorded(m: Master, i: Input, h: History)
    requires |m.data| == 32 && i.cmd.Valid() && m.count == 0 && m.cycle && !m.mdc
    ensures Next(m, i) == Tick(m, i).(cycle := false, mdc := true, count := i.prescale)
    ensures Record(m, i, h) == h.(edges := h.edges + [Level(m)])
  {
  }

  lemma RisingEdge(m: Master, i: Input, h: History)
    requires EdgeInv(m, h) && i.cmd.Valid() && m.count == 0 && m.cycle
    ensures EdgeInv(Next(m, i), Record(m, i, h))
  {
    var n := |h.commands| - 1;
    RisingIsRecorded(m, i, h);
    LevelIsLine(m, h.commands[n], h.samples);
    LineNext(Lines(h.commands[..n]), h.commands[n], Progress(m));
    assert ShiftInv(Next(m, i), h.commands[n], h.samples);
  }

  lemma ShiftPreamble(m: Master, i: Input, c: Load, samples: seq<(nat, bool)>)
    requires c.Valid() && ShiftInv(m, c, samples) && m.state.Preamble? && m.bitCount > 1
    ensures ShiftInv(NextPreamble(m, i), c, samples)
  {
  }

  lemma ShiftFirst(m: Master, i: Input, c: Load, samples: seq<(nat, bool)>, at: nat)
    requires c.Valid() && ShiftInv(m, c, samples) && m.state.Preamble? && m.bitCount <= 1
    ensures ShiftInv(NextPreamble(m, i), c, samples + [(at, m.sampled)])
  {
  }

  lemma ShiftTransfer(m: Master, i: Input, c: Load, samples: seq<(nat, bool)>, at: nat)
    requires c.Valid() && ShiftInv(m, c, samples) && m.state.Transfer? && m.bitCount > 1
    ensures ShiftInv(NextTransfer(m, i), c, samples + [(at, m.sampled)])
  {
    var m' := NextTransfer(m, i);
    assert m'.line == m.data[0] == c.frame[33 - m.bitCount];
    assert forall k :: 0 <= k < m'.bitCount - 1 ==> m'.data[k] == m.data[k + 1];
  }

  /** The clock goes down and the next bit is put on the line. */
  lemma NextBit(m: Master, i: Input, h: History, m': Master, samples: seq<(nat, bool)>)
    requires EdgeInv(m, h) && !m.cycle && !m.state.Idle? && m'.cycle && !m'.mdc
    requires ShiftInv(m', h.commands[|h.commands| - 1], samples) && Progress(m') == Progress(m)
    requires samples == h.samples || samples == h.samples + [(|h.edges|, m.sampled)]
    requires samples != h.samples ==> |h.edges| == EDGES * (|h.commands| - 1) + 32 + |h.samples|
    ensures EdgeInv(m', h.(samples := samples))
    ensures EdgeInv(m', History(h.commands, h.edges, samples, h.read + [m'.dataOut]))
  {
  }

  lemma EdgeCount(m: Master, h: History)
    requires EdgeInv(m, h) && !m.state.Idle?
    ensures |h.edges| == EDGES * (|h.commands| - 1) + Progress(m)
  {
  }

  lemma NextPreambleBit(m: Master, i: Input, h: History)
    requires EdgeInv(m, h) && i.cmd.Valid() && m.count == 0 && !m.cycle && m.state.Preamble?
    ensures EdgeInv(Next(m, i), Record(m, i, h))
  {
    var c := h.commands[|h.commands| - 1];
    if m.bitCount > 1 {
      ShiftPreamble(m, i, c, h.samples);
      NextBit(m, i, h, NextPreamble(m, i), h.samples);
    } else {
      EdgeCount(m, h);
      ShiftFirst(m, i, c, h.samples, |h.edges|);
      NextBit(m, i, h, NextPreamble(m, i), h.samples + [(|h.edges|, m.sampled)]);
    }
  }

  lemma NextTransferBit(m: Master, i: Input, h: History)
    requires EdgeInv(m, h) && i.cmd.Valid() && m.count == 0 && !m.cycle && m.state.Transfer? && m.bitCount > 1
    ensures EdgeInv(Next(m, i), Record(m, i, h))
  {
    EdgeCount(m, h);
    ShiftTransfer(m, i, h.commands[|h.commands| - 1], h.samples, |h.edges|);
    NextBit(m, i, h, NextTransfer(m, i), h.samples + [(|h.edges|, m.sampled)]);
  }

  lemma LastBit(m: Master, i: Input, h: History)
    requires EdgeInv(m, h) && i.cmd.Valid() && m.count == 0 && !m.cycle && m.state.Transfer? && m.bitCount <= 1
    ensures EdgeInv(Next(m, i), Record(m, i, h))
  {
    NextBit(m, i, h, NextTransfer(m, i), h.samples);
  }

  lemma NextCommand(m: Master, i: Input, h: History)
    requires EdgeInv(m, h) && i.cmd.Valid() && Accepts(m, i)
    ensures EdgeInv(Next(m, i), Record(m, i, h))
  {
    var n := |h.commands|;
    assert (h.commands + [i.cmd])[..n] == h.commands;
    if n > 0 {
      assert Line(h.commands[n - 1])[..EDGES] == Line(h.commands[n - 1]);
    }
    assert h.edges == Lines(h.commands);
    assert Line(i.cmd)[..0] == [];
  }

  /** The registers that matter for the line. */
  ghost predicate SameLine(m: Master, m': Master) {
    && m'.state == m.state && m'.bitCount == m.bitCount && m'.cycle == m.cycle && m'.data == m.data
    && m'.reading == m.reading && m'.released == m.released && m'.line == m.line
    && (m'.mdc ==> m.mdc)
  }

  lemma EdgesKept(m: Master, m': Master, h: History)
    requires EdgeInv(m, h) && SameLine(m, m')
    ensures EdgeInv(m', h)
  {
    if h.commands != [] {
      var c := h.commands[|h.commands| - 1];
      assert ShiftInv(m', c, h.samples);
      assert Progress(m') == Progress(m);
    }
  }

  lemma WaitingIsQuiet(m: Master, i: Input, h: History)
    requires |m.data| == 32 && i.cmd.Valid() && (m.count > 0 || (!m.cycle && m.state.Idle? && !Accepts(m, i)))
    ensures SameLine(m, Next(m, i)) && Record(m, i, h) == h
  {
  }

  lemma Waiting(m: Master, i: Input, h: History)
    requires EdgeInv(m, h) && i.cmd.Valid() && (m.count > 0 || (!m.cycle && m.state.Idle? && !Accepts(m, i)))
    ensures EdgeInv(Next(m, i), Record(m, i, h))
  {
    WaitingIsQuiet(m, i, h);
    EdgesKept(m, Next(m, i), h);
  }

  lemma EdgeStep(m: Master, i: Input, h: History)
    requires EdgeInv(m, h) && i.cmd.Valid()
    ensures EdgeInv(Next(m, i), Record(m, i, h))
  {
    if m.count > 0 || (!m.cycle && m.state.Idle? && !Accepts(m, i)) {
      Waiting(m, i, h);
    } else if m.cycle {
      RisingEdge(m, i, h);
    } else if m.state.Preamble? {
      NextPreambleBit(m, i, h);
    } else if m.state.Transfer? && m.bitCount > 1 {
      NextTransferBit(m, i, h);
    } else if m.state.Transfer? {
      LastBit(m, i, h);
    } else {
      NextCommand(m, i, h);
    }
  }

  ghost predicate LegalRun(inputs: seq<Input>) {
    forall k :: 0 <= k < |inputs| ==> LegalInput(inputs[k])
  }

  ghost function Run(start: Master, inputs: seq<Input>): (r: (Master, History))
    requires Reset(start) && LegalRun(inputs)
    ensures |r.0.data| == 32
  {
    if inputs == [] then (start, EMPTY)
    else
      var (m, h) := Run(start, inputs[..|inputs| - 1]);
      var i := inputs[|inputs| - 1];
      (Next(m, i), Record(m, i, h))
  }

  lemma {:induction false} RunKeepsEdges(start: Master, inputs: seq<Input>)
    requires Reset(start) && LegalRun(inputs)
    ensures EdgeInv(Run(start, inputs).0, Run(start, inputs).1)
  {
    if inputs != [] {
      RunKeepsEdges(start, inputs[..|inputs| - 1]);
      var (m, h) := Run(start, inputs[..|inputs| - 1]);
      EdgeStep(m, inputs[|inputs| - 1], h);
    }
  }

  /**
   For every command, prescale and timing: the line at successive rising edges, at any time and whenever the master is
   idle.
   */
  lemma FramesAreSerialised(start: Master, inputs: seq<Input>)
    requires Reset(start) && LegalRun(inputs)
    ensures var (m, h) := Run(start, inputs);
            && ValidLoads(h.commands) && h.edges <= Lines(h.commands)
            && (m.state.Idle? && !m.cycle ==> h.edges == Lines(h.commands) && m.released)
  {
    var (m, h) := Run(start, inputs);
    RunKeepsEdges(start, inputs);
    if h.commands != [] {
      var c := h.commands[|h.commands| - 1];
      assert Line(c)[..EDGES] == Line(c);
    }
  }

  /** A read returns the line as it was after the rising edges 15 to 30 of its frame, in order. */
  lemma ReadIsSampled(start: Master, inputs: seq<Input>, i: Input)
    requires Reset(start) && LegalRun(inputs) && LegalInput(i)
    requires var m := Run(start, inputs).0; Finishes(m) && m.reading
    ensures var (m, h) := Run(start, inputs);
            && h.commands != [] && |h.samples| == 32
            && Next(m, i).dataOutValid && |Next(m, i).dataOut| == 16
            && forall k :: 0 <= k < 16 ==>
                 && Next(m, i).dataOut[k] == h.samples[16 + k].1
                 && h.samples[16 + k].0 == EDGES * (|h.commands| - 1) + 32 + 16 + k
  {
    RunKeepsEdges(start, inputs);
  }

  // ---------------------------------------------------------------------------------------------
  // Return to idle
  // ---------------------------------------------------------------------------------------------

  predicate Resting(m: Master) { m.state.Idle? && !m.cycle && m.count == 0 }

  /** Half clock periods left, in clock cycles at the slowest prescale. */
  function Rank(m: Master): int { 256 * (2 * (EDGES - Progress(m)) + if m.cycle then -1 else 0) + m.count }

  ghost predicate Bounded(m: Master) {
    && |m.data| == 32 && m.count < 256
    && (!m.state.Idle? ==> 1 <= m.bitCount <= 32)
  }

  lemma RankOfPreamble(m: Master, i: Input)
    requires Bounded(m) && LegalInput(i) && m.count == 0 && !m.cycle && m.state.Preamble?
    ensures Bounded(Next(m, i)) && Rank(Next(m, i)) < Rank(m)
  {
  }

  lemma RankOfTransfer(m: Master, i: Input)
    requires Bounded(m) && LegalInput(i) && m.count == 0 && !m.cycle && m.state.Transfer?
    ensures Bounded(Next(m, i)) && Rank(Next(m, i)) < Rank(m)
  {
  }

  lemma RankOfWait(m: Master, i: Input)
    requires Bounded(m) && LegalInput(i) && (m.count > 0 || m.cycle)
    ensures Bounded(Next(m, i)) && Rank(Next(m, i)) < Rank(m)
  {
  }

  lemma RankDecreases(m: Master, i: Input)
    requires Bounded(m) && LegalInput(i) && !Resting(m)
    ensures Bounded(Next(m, i)) && Rank(Next(m, i)) < Rank(m)
  {
    if m.count > 0 || m.cycle {
      RankOfWait(m, i);
    } else if m.state.Preamble? {
      RankOfPreamble(m, i);
    } else {
      RankOfTransfer(m, i);
    }
  }

  /** The rank says how long it takes at most. */
  lemma RankIsBound(m: Master)
    requires Bounded(m)
    ensures 0 <= Rank(m) <= 256 * 2 * EDGES && (Rank(m) == 0 <==> Resting(m))
  {
  }

  function After(m: Master, inputs: seq<Input>): (m': Master)
    requires |m.data| == 32 && LegalRun(inputs)
    ensures |m'.data| == 32
    decreases |inputs|
  {
    if inputs == [] then m else After(Next(m, inputs[0]), inputs[1..])
  }

  /** Whatever the inputs and the prescale, the master is at rest again within a bounded number of cycles. */
  lemma {:induction false} ReturnsToIdle(m: Master, inputs: seq<Input>) returns (k: nat)
    requires Bounded(m) && LegalRun(inputs) && |inputs| >= Rank(m)
    ensures k <= Rank(m) && k <= |inputs| && Resting(After(m, inputs[..k]))
    decreases |inputs|
  {
    RankIsBound(m);
    if Resting(m) {
      k := 0;
    } else {
      RankDecreases(m, inputs[0]);
      var l := ReturnsToIdle(Next(m, inputs[0]), inputs[1..]);
      k := l + 1;
      assert inputs[..k][1..] == inputs[1..][..l];
    }
  }
}
