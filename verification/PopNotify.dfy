/**
 Pop notifications and socket status changes: a processor that works on receive control words by
 read-modify-write, the register file, and the edge detectors behind the popped bits.
 */
module PopNotify {
  import opened Options
  import opened RegisterFile
  import opened EdgePulse

  datatype Task = Notify(index: nat) | SetStatus(index: nat, open: bool)

  predicate ValidTask(t: Task) { t.index < MAX_UDP_PORTS }

  /** The words a task writes, given the control word it read. */
  function Script(t: Task, value: Word): (words: seq<Word>) {
    match t
    case Notify(_) => [value[POPPED := false], value[POPPED := true], value[POPPED := false]]
    case SetStatus(_, open) => [value[OPENSOCK := open]]
  }

  /** A control word as read: two bits come from the register, the status bits from the hardware. */
  function ReadWord(register: Word, status: Word): (w: Word) {
    seq(32, b requires 0 <= b < 32 =>
      if b == POPPED || b == OPENSOCK then register[b] else if b < OPENSOCK then status[b] else false)
  }

  datatype Cpu = Ready | Reading(task: Task) | Writing(task: Task, value: Word, stage: nat)

  datatype System = System(regs: Registers, detectors: seq<Detector>, cpu: Cpu) {
    ghost predicate Valid() {
      && regs.Valid()
      && |detectors| == MAX_UDP_PORTS
      && (!cpu.Ready? ==> ValidTask(cpu.task))
      && (cpu.Writing? ==> cpu.stage < |Script(cpu.task, cpu.value)|)
    }
  }

  /** One cycle: a task to start, whether bus signals get through, the hardware's status bits, its push. */
  datatype Input = Input(start: Option<Task>, go: bool, status: Word, push: bool)

  ghost predicate LegalInput(i: Input) { i.start.Some? ==> ValidTask(i.start.value) }

  function Outstanding(c: Cpu): (a: Access)
    requires c.Writing? && c.stage < |Script(c.task, c.value)|
  {
    Access(RxControlOffset(c.task.index), Script(c.task, c.value)[c.stage])
  }

  function NextCpu(s: System, i: Input): (c: Cpu)
    requires s.Valid()
  {
    match s.cpu
    case Ready => if i.start.Some? then Reading(i.start.value) else Ready
    case Reading(task) =>
      if i.go then Writing(task, ReadWord(s.regs.rx[task.index], i.status), 0) else s.cpu
    case Writing(task, value, stage) =>
      if !Responds(s.regs, i.go) then s.cpu
      else if stage + 1 < |Script(task, value)| then Writing(task, value, stage + 1)
      else Ready
  }

  function Bus(s: System, i: Input): (bus: WriteBus)
    requires s.Valid()
    ensures |bus.wstrb| == 4
  {
    if s.cpu.Writing? then Drive(s.regs, Outstanding(s.cpu), i.go) else Quiet()
  }

  function Next(s: System, i: Input): (s': System)
    requires s.Valid() && LegalInput(i)
    ensures s'.Valid()
  {
    System(
      RegisterFile.Next(s.regs, Bus(s, i), i.push),
      seq(MAX_UDP_PORTS, k requires 0 <= k < MAX_UDP_PORTS => s.detectors[k].Next(s.regs.rx[k][POPPED])),
      NextCpu(s, i))
  }

  /** All popped bits clear, detectors quiet, processor ready. */
  ghost predicate Initial(s: System) {
    && s.Valid() && s.cpu.Ready? && s.regs.wstate.WrIdle?
    && (forall k :: 0 <= k < MAX_UDP_PORTS ==> !s.regs.rx[k][POPPED] && s.detectors[k] == CLEAR)
  }

  // ---------------------------------------------------------------------------------------------
  // What happened at one buffer
  // ---------------------------------------------------------------------------------------------

  /** Tasks completed so far, and cycles in which the pop pulse of the observed buffer was high. */
  datatype History = History(done: seq<Task>, pulses: nat)

  function Record(s: System, i: Input, h: History, k: nat): (h': History)
    requires s.Valid() && k < MAX_UDP_PORTS
  {
    History(
      if s.cpu.Writing? && NextCpu(s, i).Ready? then h.done + [s.cpu.task] else h.done,
      h.pulses + Count(s.detectors[k].Pulse()))
  }

  function Notified(done: seq<Task>, k: nat): (n: nat) {
    if done == [] then 0
    else Notified(done[..|done| - 1], k) + Count(done[|done| - 1] == Notify(k))
  }

  /** The status last given to buffer `k`, or the initial one. */
  function Status(done: seq<Task>, k: nat, initial: bool): (open: bool) {
    if done == [] then initial
    else
      var t := done[|done| - 1];
      if t.SetStatus? && t.index == k then t.open else Status(done[..|done| - 1], k, initial)
  }

  /** The write of a one to buffer `k` has taken effect, and its task is still running. */
  predicate PopLanded(s: System, k: nat) {
    s.cpu.Writing? && s.cpu.task == Notify(k) && (s.cpu.stage == 2 || (s.cpu.stage == 1 && s.regs.wstate.WrResp?))
  }

  predicate PopHigh(s: System, k: nat) {
    PopLanded(s, k) && !(s.cpu.stage == 2 && s.regs.wstate.WrResp?)
  }

  predicate StatusLanded(s: System, k: nat) {
    s.cpu.Writing? && s.cpu.task.SetStatus? && s.cpu.task.index == k && s.regs.wstate.WrResp?
  }

  ghost predicate BusInv(s: System) {
    && s.Valid()
    && (!s.cpu.Writing? ==> s.regs.wstate.WrIdle?)
    && (!s.regs.wstate.WrIdle? ==> s.cpu.Writing? && s.regs.waddr == RxControlOffset(s.cpu.task.index))
  }

  ghost predicate BitInv(s: System, done: seq<Task>, k: nat, initial: bool)
    requires s.Valid() && k < MAX_UDP_PORTS
  {
    var open := if StatusLanded(s, k) then s.cpu.task.open else Status(done, k, initial);
    && s.regs.rx[k][POPPED] == PopHigh(s, k)
    && s.regs.rx[k][OPENSOCK] == open
    && (s.cpu.Writing? && s.cpu.task.index == k ==>
          !s.cpu.value[POPPED] && s.cpu.value[OPENSOCK] == Status(done, k, initial))
  }

  ghost predicate PulseInv(s: System, h: History, k: nat)
    requires s.Valid() && k < MAX_UDP_PORTS
  {
    var signal, d := s.regs.rx[k][POPPED], s.detectors[k];
    && h.pulses + Count(d.Pending(signal)) == Notified(h.done, k) + Count(PopLanded(s, k))
    && (!signal ==> !d.Pending(false))
    && (signal && s.cpu.Writing? && s.cpu.stage == 2 ==> d.reg1 && (s.regs.wstate.WrData? ==> d.reg2))
  }

  ghost predicate Inv(s: System, h: History, k: nat, initial: bool)
    requires k < MAX_UDP_PORTS
  {
    BusInv(s) && BitInv(s, h.done, k, initial) && PulseInv(s, h, k)
  }

  lemma DoneAppend(done: seq<Task>, t: Task, k: nat, initial: bool)
    ensures Notified(done + [t], k) == Notified(done, k) + Count(t == Notify(k))
    ensures Status(done + [t], k, initial) == if t.SetStatus? && t.index == k then t.open else Status(done, k, initial)
  {
    assert (done + [t])[..|done|] == done;
  }

  /** The control word of buffer `k` after one cycle. */
  lemma WordStep(s: System, i: Input, k: nat)
    requires BusInv(s) && LegalInput(i) && k < MAX_UDP_PORTS
    ensures Next(s, i).regs.rx[k] ==
            if s.cpu.Writing? && s.cpu.task.index == k && Lands(s.regs, i.go) then Outstanding(s.cpu).data
            else s.regs.rx[k]
  {
    if s.cpu.Writing? && Lands(s.regs, i.go) {
      RxControlAddress(s.cpu.task.index);
      FullMerge(s.regs.rx[s.cpu.task.index], Outstanding(s.cpu).data, ALL_LANES);
    }
  }

  lemma BusStep(s: System, i: Input)
    requires BusInv(s) && LegalInput(i)
    ensures BusInv(Next(s, i))
    ensures Next(s, i).regs.wstate ==
            if !(s.cpu.Writing? && i.go) then s.regs.wstate
            else if s.regs.wstate.WrIdle? then WrData
            else if s.regs.wstate.WrData? then WrResp
            else WrIdle
  {
  }

  lemma BitStep(s: System, i: Input, h: History, k: nat, initial: bool)
    requires BusInv(s) && LegalInput(i) && k < MAX_UDP_PORTS && BitInv(s, h.done, k, initial)
    ensures BitInv(Next(s, i), Record(s, i, h, k).done, k, initial)
  {
    WordStep(s, i, k);
    BusStep(s, i);
    if s.cpu.Writing? {
      DoneAppend(h.done, s.cpu.task, k, initial);
    }
  }

  lemma PulseStep(s: System, i: Input, h: History, k: nat, initial: bool)
    requires BusInv(s) && LegalInput(i) && k < MAX_UDP_PORTS && BitInv(s, h.done, k, initial) && PulseInv(s, h, k)
    ensures PulseInv(Next(s, i), Record(s, i, h, k), k)
  {
    WordStep(s, i, k);
    BusStep(s, i);
    BitStep(s, i, h, k, initial);
    if s.cpu.Writing? {
      DoneAppend(h.done, s.cpu.task, k, initial);
    }
  }

  // ---------------------------------------------------------------------------------------------
  // Runs
  // ---------------------------------------------------------------------------------------------

  ghost predicate LegalRun(inputs: seq<Input>) {
    forall j :: 0 <= j < |inputs| ==> LegalInput(inputs[j])
  }

  ghost function Run(start: System, inputs: seq<Input>, k: nat): (r: (System, History))
    requires Initial(start) && LegalRun(inputs) && k < MAX_UDP_PORTS
    ensures r.0.Valid()
  {
    if inputs == [] then
      (start, History([], 0))
    else
      var before := Run(start, inputs[..|inputs| - 1], k);
      var i := inputs[|inputs| - 1];
      (Next(before.0, i), Record(before.0, i, before.1, k))
  }

  lemma {:induction false} RunKeepsInv(start: System, inputs: seq<Input>, k: nat)
    requires Initial(start) && LegalRun(inputs) && k < MAX_UDP_PORTS
    ensures var (s, h) := Run(start, inputs, k);
            Inv(s, h, k, start.regs.rx[k][OPENSOCK])
  {
    if inputs != [] {
      var n, initial := |inputs| - 1, start.regs.rx[k][OPENSOCK];
      RunKeepsInv(start, inputs[..n], k);
      var (s, h) := Run(start, inputs[..n], k);
      BusStep(s, inputs[n]);
      BitStep(s, inputs[n], h, k, initial);
      PulseStep(s, inputs[n], h, k, initial);
    }
  }

  /**
   Over any sequential run, whenever the processor is between tasks: buffer `k` saw exactly one pulse
   cycle for each notification of `k`, and its socket bit is what the last status call for `k` said.
   The hardware status bits that were read and written back had no effect.
   */
  lemma PulsesAreExact(start: System, inputs: seq<Input>, k: nat)
    requires Initial(start) && LegalRun(inputs) && k < MAX_UDP_PORTS
    ensures var (s, h) := Run(start, inputs, k);
            s.cpu.Ready? ==>
              && h.pulses == Notified(h.done, k)
              && s.regs.rx[k][OPENSOCK] == Status(h.done, k, start.regs.rx[k][OPENSOCK])
              && !s.regs.rx[k][POPPED]
  {
    RunKeepsInv(start, inputs, k);
  }

  /** A pop is over before its task is: in the cycle of the last response no pulse is left to come. */
  lemma PopPrecedesCompletion(start: System, inputs: seq<Input>, k: nat)
    requires Initial(start) && LegalRun(inputs) && k < MAX_UDP_PORTS
    ensures var (s, h) := Run(start, inputs, k);
            s.cpu.Writing? && s.cpu.task == Notify(k) && s.cpu.stage == 2 && s.regs.wstate.WrResp? ==>
              h.pulses == Notified(h.done, k) + 1
  {
    RunKeepsInv(start, inputs, k);
  }
}
