/**
 The interrupt and NAPI protocol: the register file's toggle-on-write status bit, the interrupt
 handler and the poll function, interleaved cycle by cycle with hardware pushes.
 */
module Interrupt {
  import opened Options
  import opened RegisterFile

  /**
   Where the processor is. A handler remembers whether it was entered on an asserted line; a sweep
   remembers the next open port, the packets processed and whether this sweep found one.
   */
  datatype Cpu =
    | Idle
    | DisableIrq(asserted: bool)
    | Schedule(asserted: bool)
    | Acknowledge(asserted: bool)
    | Sweep(budget: nat, port: nat, processed: nat, found: bool)
    | Deliver(budget: nat, port: nat, processed: nat)
    | Complete
    | EnableIrq

  /** `waiting[b]` packets are in receive buffer b; `open` lists the buffers the poll function visits. */
  datatype System = System(regs: Registers, waiting: seq<nat>, open: seq<nat>, scheduled: bool, cpu: Cpu) {
    ghost predicate Valid() {
      && regs.Valid()
      && |waiting| == MAX_UDP_PORTS
      && (forall p :: 0 <= p < |open| ==> open[p] < MAX_UDP_PORTS)
      && (cpu.Deliver? ==> cpu.port < |open| && waiting[open[cpu.port]] > 0)
    }

    ghost predicate AllEmpty() {
      forall p :: 0 <= p < |open| && open[p] < |waiting| ==> waiting[open[p]] == 0
    }
  }

  /** What an idle processor turns to. */
  datatype Event = NoEvent | EnterHandler | StartPoll(budget: nat)

  /**
   One cycle: a buffer the hardware pushes to, the next event, whether bus and processor make progress, and whether an
   skb can be had.
   */
  datatype Input = Input(push: Option<nat>, event: Event, go: bool, skb: bool)

  ghost predicate LegalInput(i: Input) { i.push.Some? ==> i.push.value < MAX_UDP_PORTS }

  function Outstanding(c: Cpu): (a: Option<Access>) {
    match c
    case DisableIrq(_) => Some(Access(ADDR_GIE, BitWord(false)))
    case Acknowledge(_) => Some(Access(ADDR_ISR0, BitWord(false)))
    case EnableIrq => Some(Access(ADDR_GIE, BitWord(true)))
    case _ => None
  }

  function Bus(s: System, i: Input): (bus: WriteBus)
    ensures |bus.wstrb| == 4
  {
    if Outstanding(s.cpu).Some? then Drive(s.regs, Outstanding(s.cpu).value, i.go) else Quiet()
  }

  /** The handler and the poll function, one step of theirs at a time. */
  function NextCpu(s: System, i: Input): (c: Cpu)
    requires s.Valid()
  {
    var responds := Responds(s.regs, i.go);
    match s.cpu
    case Idle =>
      (match i.event
       case NoEvent => Idle
       case EnterHandler => DisableIrq(s.regs.Interrupt())
       case StartPoll(budget) => if s.scheduled then Sweep(budget, 0, 0, false) else Idle)
    case DisableIrq(asserted) => if responds then Schedule(asserted) else s.cpu
    case Schedule(asserted) => Acknowledge(asserted)
    case Acknowledge(_) => if responds then Idle else s.cpu
    case Sweep(budget, port, processed, found) =>
      if port < |s.open| && processed < budget then
        if !i.go then s.cpu
        else if s.waiting[s.open[port]] == 0 then Sweep(budget, port + 1, processed, found)
        else Deliver(budget, port, processed)
      else if found && processed < budget then Sweep(budget, 0, processed, false)
      else if processed < budget then Complete
      else Idle
    case Deliver(budget, port, processed) =>
      if !i.skb then Sweep(budget, |s.open|, processed, true)
      else if i.go then Sweep(budget, port + 1, processed + 1, true)
      else s.cpu
    case Complete => EnableIrq
    case EnableIrq => if responds then Idle else s.cpu
  }

  /** The delivered packet leaves its buffer. */
  predicate Pops(s: System, i: Input) { s.cpu.Deliver? && i.skb && i.go }

  function NextWaiting(s: System, i: Input): (w: seq<nat>)
    requires s.Valid() && LegalInput(i)
    ensures |w| == MAX_UDP_PORTS
  {
    var popped := if Pops(s, i) then s.waiting[s.open[s.cpu.port] := s.waiting[s.open[s.cpu.port]] - 1] else s.waiting;
    if i.push.Some? then popped[i.push.value := popped[i.push.value] + 1] else popped
  }

  function Next(s: System, i: Input): (s': System)
    requires s.Valid() && LegalInput(i)
    ensures s'.Valid()
  {
    System(
      RegisterFile.Next(s.regs, Bus(s, i), i.push.Some?),
      NextWaiting(s, i),
      s.open,
      if s.cpu.Schedule? then true else if s.cpu.Complete? then false else s.scheduled,
      NextCpu(s, i))
  }

  /** After the device was opened: interrupts enabled, nothing pending, buffers drained. */
  ghost predicate Initial(s: System) {
    && s.Valid() && s.cpu.Idle? && !s.scheduled && s.AllEmpty()
    && s.regs.wstate.WrIdle? && s.regs.ier && s.regs.gie && !s.regs.isr && s.regs.isrMutex
  }

  ghost predicate BusInv(s: System) {
    && s.Valid()
    && s.regs.ier
    && (Outstanding(s.cpu).None? ==> s.regs.wstate.WrIdle?)
    && (!s.regs.wstate.WrIdle? ==> s.regs.waddr == Outstanding(s.cpu).value.addr)
    && (s.regs.wstate.WrData? ==> s.regs.isrMutex)
  }

  /** Buffers this sweep already found empty are still empty, or a push has set the status bit since. */
  ghost predicate SweptEmpty(s: System, upto: nat) {
    s.regs.isr || forall p :: 0 <= p < upto && p < |s.open| && s.open[p] < |s.waiting| ==> s.waiting[s.open[p]] == 0
  }

  ghost predicate WakeInv(s: System) {
    && (s.cpu.Acknowledge? || s.cpu.Sweep? || s.cpu.Deliver? || s.cpu.Complete? ==> s.scheduled)
    && (s.cpu.EnableIrq? ==> !s.scheduled)
    // nothing is forgotten while no poll is due
    && (!s.scheduled ==> s.regs.isr || s.AllEmpty())
    // nor by the sweep that will end the poll
    && (s.cpu.Sweep? && !s.cpu.found && s.cpu.processed < s.cpu.budget ==> SweptEmpty(s, s.cpu.port))
    && (s.cpu.Complete? ==> s.regs.isr || s.AllEmpty())
    // interrupts are back on when the processor is idle with no poll due
    && (s.cpu.Idle? && !s.scheduled ==> s.regs.gie)
    && (s.cpu.EnableIrq? && s.regs.wstate.WrResp? ==> s.regs.gie)
    // a handler entered on an asserted line still finds the bit it acknowledges
    && ((s.cpu.DisableIrq? || s.cpu.Schedule? || (s.cpu.Acknowledge? && !s.regs.wstate.WrResp?)) && s.cpu.asserted ==>
          s.regs.isr)
  }

  ghost predicate Inv(s: System) { BusInv(s) && WakeInv(s) }

  /** How the interrupt registers move: only the processor's own writes change them, and pushes set the status bit. */
  lemma RegisterStep(s: System, i: Input)
    requires BusInv(s) && LegalInput(i)
    ensures var r, r' := s.regs, Next(s, i).regs;
            var lands := Outstanding(s.cpu).Some? && Lands(r, i.go);
            && r'.ier
            && r'.gie == (if lands && s.cpu.DisableIrq? then false
                          else if lands && s.cpu.EnableIrq? then true else r.gie)
            && r'.isr == (if lands && s.cpu.Acknowledge? then !r.isr else r.isr || i.push.Some?)
            && r'.wstate == (if Outstanding(s.cpu).None? || !i.go then r.wstate
                             else if r.wstate.WrIdle? then WrData else if r.wstate.WrData? then WrResp else WrIdle)
  {
  }

  lemma BusStep(s: System, i: Input)
    requires BusInv(s) && LegalInput(i)
    ensures BusInv(Next(s, i))
  {
    RegisterStep(s, i);
  }

  /**
   A cycle without a push or pop leaves the buffers alone; one with a push sets the bit unless it is being
   acknowledged.
   */
  lemma WakeStep(s: System, i: Input)
    requires Inv(s) && LegalInput(i)
    ensures WakeInv(Next(s, i))
  {
    RegisterStep(s, i);
    var s' := Next(s, i);
    if !Pops(s, i) && i.push.None? {
      assert s'.waiting == s.waiting;
    }
  }

  ghost predicate LegalRun(inputs: seq<Input>) {
    forall j :: 0 <= j < |inputs| ==> LegalInput(inputs[j])
  }

  ghost function Run(start: System, inputs: seq<Input>): (s: System)
    requires Initial(start) && LegalRun(inputs)
    ensures s.Valid() && s.open == start.open
  {
    if inputs == [] then start else Next(Run(start, inputs[..|inputs| - 1]), inputs[|inputs| - 1])
  }

  lemma {:induction false} RunKeepsInv(start: System, inputs: seq<Input>)
    requires Initial(start) && LegalRun(inputs)
    ensures Inv(Run(start, inputs))
  {
    if inputs != [] {
      var n := |inputs| - 1;
      RunKeepsInv(start, inputs[..n]);
      BusStep(Run(start, inputs[..n]), inputs[n]);
      WakeStep(Run(start, inputs[..n]), inputs[n]);
    }
  }

  /**
   No lost wake-up: in every interleaving, when NAPI is idle and the status bit is clear, every open
   buffer is empty. Hence an idle processor that still has packets to fetch has a poll due or an
   asserted interrupt line.
   */
  lemma NoLostWakeUp(start: System, inputs: seq<Input>)
    requires Initial(start) && LegalRun(inputs)
    ensures var s := Run(start, inputs);
            && (!s.scheduled && !s.regs.isr ==> s.AllEmpty())
            && (s.cpu.Idle? && !s.AllEmpty() ==> s.scheduled || s.regs.Interrupt())
            && (s.cpu.Idle? && !s.scheduled ==> s.regs.gie)
  {
    RunKeepsInv(start, inputs);
  }

  /**
   A handler entered on an asserted line clears it, even when a push comes in the very same cycle: the push is
   swallowed.
   */
  lemma AcknowledgeSwallowsPush(start: System, inputs: seq<Input>, i: Input)
    requires Initial(start) && LegalRun(inputs) && LegalInput(i)
    requires var s := Run(start, inputs); s.cpu.Acknowledge? && s.cpu.asserted && Lands(s.regs, i.go)
    ensures var s := Run(start, inputs); s.regs.isr && !Next(s, i).regs.isr && s.scheduled
  {
    RunKeepsInv(start, inputs);
    RegisterStep(Run(start, inputs), i);
  }

  /** Polling ends only with every open buffer empty, or with the status bit set by a push the sweep missed. */
  lemma PollEndsDrained(start: System, inputs: seq<Input>)
    requires Initial(start) && LegalRun(inputs)
    ensures var s := Run(start, inputs); s.cpu.Complete? ==> s.regs.isr || s.AllEmpty()
  {
    RunKeepsInv(start, inputs);
  }
}
