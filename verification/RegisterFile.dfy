/**
 The AXI-Lite register file: write channel state machine, the writable registers the protocols use,
 and the interrupt status, enable and global-enable registers.
 */
module RegisterFile {

  const MAX_UDP_PORTS := 1024

  /** A 32-bit register, least significant bit first. */
  type Word = w: seq<bool> | |w| == 32 witness seq(32, _ => false)

  /** The word whose only bit that can be set is bit 0. */
  function BitWord(bit: bool): Word { seq(32, b => b == 0 && bit) }

  // Bit layout of a receive control word.
  const POPPED := 0
  const EMPTY := 3
  const OPENSOCK := 14

  // Register addresses, as the hardware and both drivers define them.
  const ADDR_ISR0 := 0x50
  const ADDR_IER0 := 0x58
  const ADDR_GIE := 0x60
  const ADDR_BUFTX_PUSHED := 0x88
  const ADDR_BUFRX := 0xa0

  datatype Register = Isr | Ier | Gie | TxPushed | RxControl(index: nat) | Other

  /** The address decoder of the write channel; addresses are 14 bits wide. */
  function Decode(addr: nat): (r: Register) {
    if addr < ADDR_BUFRX then
      if addr == ADDR_ISR0 then Isr
      else if addr == ADDR_IER0 then Ier
      else if addr == ADDR_GIE then Gie
      else if addr == ADDR_BUFTX_PUSHED then TxPushed
      else Other
    else if addr < ADDR_BUFRX + 8 * MAX_UDP_PORTS then RxControl((addr - ADDR_BUFRX) / 8)
    else Other
  }

  /** Where the drivers look for the control word of buffer `index`. */
  function RxControlOffset(index: nat): nat { ADDR_BUFRX + index * 8 }

  /** Drivers and hardware agree on every control register, and all of them are reachable with 14 address bits. */
  lemma RxControlAddress(index: nat)
    ensures index < MAX_UDP_PORTS ==>
              Decode(RxControlOffset(index)) == RxControl(index) && RxControlOffset(index) + 8 <= 0x4000
    ensures index >= MAX_UDP_PORTS ==> Decode(RxControlOffset(index)) == Other
  {
  }

  datatype WriteState = WrIdle | WrData | WrResp

  /** The write channel as a master drives it in one cycle. */
  datatype WriteBus = WriteBus(awvalid: bool, awaddr: nat, wvalid: bool, wdata: Word, wstrb: seq<bool>, bready: bool)

  datatype Registers = Registers(
    wstate: WriteState,
    waddr: nat,
    txPushed: bool,
    rx: seq<Word>,
    isr: bool,
    isrMutex: bool,
    ier: bool,
    gie: bool)
  {
    ghost predicate Valid() { |rx| == MAX_UDP_PORTS }

    /** The level interrupt line. */
    predicate Interrupt() { gie && isr }
  }

  /** The data handshake: the cycle in which a write takes effect. */
  predicate WriteHandshake(r: Registers, bus: WriteBus) {
    bus.wvalid && r.wstate.WrData?
  }

  /** A byte-strobed write. */
  function Merge(old_: Word, data: Word, strb: seq<bool>): (w: Word)
    requires |strb| == 4
  {
    seq(32, b requires 0 <= b < 32 => if strb[b / 8] then data[b] else old_[b])
  }

  lemma FullMerge(old_: Word, data: Word, strb: seq<bool>)
    requires |strb| == 4 && forall k :: 0 <= k < 4 ==> strb[k]
    ensures Merge(old_, data, strb) == data
  {
  }

  function NextWriteState(s: WriteState, bus: WriteBus): WriteState {
    match s
    case WrIdle => if bus.awvalid then WrData else WrIdle
    case WrData => if bus.wvalid then WrResp else WrData
    case WrResp => if bus.bready then WrIdle else WrResp
  }

  /** One clock edge, without reset; `push` is the hardware's "some receive buffer was pushed". */
  function Next(r: Registers, bus: WriteBus, push: bool): (r': Registers)
    requires r.Valid() && |bus.wstrb| == 4
    ensures r'.Valid()
  {
    var hs := WriteHandshake(r, bus);
    var target := Decode(r.waddr);
    var strobed := hs && bus.wstrb[0];
    Registers(
      NextWriteState(r.wstate, bus),
      if bus.awvalid && r.wstate.WrIdle? then bus.awaddr else r.waddr,
      if strobed && target.TxPushed? then bus.wdata[0] else r.txPushed,
      if hs && target.RxControl? then r.rx[target.index := Merge(r.rx[target.index], bus.wdata, bus.wstrb)] else r.rx,
      // a write toggles the status bit, once; any other cycle may set it
      if hs && target.Isr? then r.isr != r.isrMutex else (r.ier && push) || r.isr,
      !(hs && target.Isr?),
      if strobed && target.Ier? then bus.wdata[0] else r.ier,
      if strobed && target.Gie? then bus.wdata[0] else r.gie)
  }

  /** One 32-bit write of a processor, wherever it stands in the three handshakes. */
  datatype Access = Access(addr: nat, data: Word)

  const ALL_LANES := [true, true, true, true]

  /** The bus while the processor has nothing outstanding. */
  function Quiet(): WriteBus { WriteBus(false, 0, false, BitWord(false), ALL_LANES, false) }

  /**
   The bus while the processor has `access` outstanding; `go` is whether the interconnect forwards its signals now.
   */
  function Drive(r: Registers, access: Access, go: bool): (bus: WriteBus)
    ensures |bus.wstrb| == 4
  {
    WriteBus(go && r.wstate.WrIdle?, access.addr, go && r.wstate.WrData?, access.data, ALL_LANES,
             go && r.wstate.WrResp?)
  }

  /** The access takes effect in this cycle. */
  predicate Lands(r: Registers, go: bool) { go && r.wstate.WrData? }

  /** The processor sees the access completed at the end of this cycle. */
  predicate Responds(r: Registers, go: bool) { go && r.wstate.WrResp? }

  // ---------------------------------------------------------------------------------------------
  // A write access from its first to its last cycle
  // ---------------------------------------------------------------------------------------------

  /** One cycle: whether the interconnect forwards the processor's signals, and the hardware's push. */
  datatype Cycle = Cycle(go: bool, push: bool)

  /** The registers while an access is outstanding. */
  function During(r: Registers, access: Access, cycles: seq<Cycle>): (r': Registers)
    requires r.Valid()
    ensures r'.Valid()
  {
    if cycles == [] then r
    else
      var before, c := During(r, access, cycles[..|cycles| - 1]), cycles[|cycles| - 1];
      Next(before, Drive(before, access, c.go), c.push)
  }

  /** The access is completed in the last of these cycles, and not before. */
  ghost predicate Completes(r: Registers, access: Access, cycles: seq<Cycle>)
    requires r.Valid()
  {
    && cycles != []
    && Responds(During(r, access, cycles[..|cycles| - 1]), cycles[|cycles| - 1].go)
    && Pends(r, access, cycles[..|cycles| - 1])
  }

  /** The access has not been completed by any of these cycles. */
  ghost predicate Pends(r: Registers, access: Access, cycles: seq<Cycle>)
    requires r.Valid()
  {
    cycles == [] ||
    var n := |cycles| - 1;
    Pends(r, access, cycles[..n]) && !Responds(During(r, access, cycles[..n]), cycles[n].go)
  }

  /** The registers after one write of the access; the interrupt status has lines of its own below. */
  function Written(r: Registers, access: Access): (r': Registers)
    requires r.Valid()
  {
    match Decode(access.addr)
    case TxPushed => r.(txPushed := access.data[0])
    case Ier => r.(ier := access.data[0])
    case Gie => r.(gie := access.data[0])
    case RxControl(index) => r.(rx := r.rx[index := access.data])
    case _ => r
  }

  /** Equal but for the write channel and the interrupt status. */
  ghost predicate SameStorage(r: Registers, s: Registers) {
    r.txPushed == s.txPushed && r.rx == s.rx && r.ier == s.ier && r.gie == s.gie
  }

  ghost predicate AccessInv(r: Registers, access: Access, now: Registers)
    requires r.Valid()
  {
    && (!now.wstate.WrIdle? ==> now.waddr == access.addr)
    && SameStorage(now, if now.wstate.WrResp? then Written(r, access) else r)
  }

  lemma AccessStep(r: Registers, access: Access, now: Registers, c: Cycle)
    requires r.Valid() && now.Valid() && AccessInv(r, access, now) && !Responds(now, c.go)
    ensures AccessInv(r, access, Next(now, Drive(now, access, c.go), c.push))
  {
    if Lands(now, c.go) && Decode(access.addr).RxControl? {
      var index := Decode(access.addr).index;
      FullMerge(now.rx[index], access.data, ALL_LANES);
    }
  }

  lemma {:induction false} AccessProgress(r: Registers, access: Access, cycles: seq<Cycle>)
    requires r.Valid() && r.wstate.WrIdle? && Pends(r, access, cycles)
    ensures AccessInv(r, access, During(r, access, cycles))
  {
    if cycles != [] {
      var n := |cycles| - 1;
      AccessProgress(r, access, cycles[..n]);
      AccessStep(r, access, During(r, access, cycles[..n]), cycles[n]);
    }
  }

  /**
   However long its three handshakes take, a completed access has written its register once and no
   other, and leaves the channel idle.
   */
  lemma AccessWritesOnce(r: Registers, access: Access, cycles: seq<Cycle>)
    requires r.Valid() && r.wstate.WrIdle? && Completes(r, access, cycles)
    ensures var r' := During(r, access, cycles);
            r'.wstate.WrIdle? && SameStorage(r', Written(r, access))
  {
    AccessProgress(r, access, cycles[..|cycles| - 1]);
  }

  /**
   An acknowledging access, however long it takes, toggles the status bit once when the hardware pushes
   nothing meanwhile: it clears a bit that is set, and sets one that is clear.
   */
  lemma {:induction false} AcknowledgeTogglesOnce(r: Registers, access: Access, cycles: seq<Cycle>)
    requires r.Valid() && r.wstate.WrIdle? && r.isrMutex && Decode(access.addr).Isr? && Pends(r, access, cycles)
    requires forall k :: 0 <= k < |cycles| ==> !cycles[k].push
    ensures var r' := During(r, access, cycles);
            && r'.isr == (if r'.wstate.WrResp? then !r.isr else r.isr)
            && (r'.wstate.WrData? ==> r'.isrMutex)
  {
    if cycles != [] {
      var n := |cycles| - 1;
      AcknowledgeTogglesOnce(r, access, cycles[..n]);
      AccessProgress(r, access, cycles[..n]);
    }
  }

  /** The module as declared, with its clocked blocks. */
  class Manager {
    var wstate: WriteState
    var waddr: nat
    var txPushed: bool
    var rx: array<Word>
    var isr: bool
    var isrMutex: bool
    var ier: bool
    var gie: bool

    ghost predicate Valid()
      reads this
    {
      rx.Length == MAX_UDP_PORTS
    }

    ghost function State(): Registers
      reads this, rx
    {
      Registers(wstate, waddr, txPushed, rx[..], isr, isrMutex, ier, gie)
    }

    constructor ()
      ensures Valid() && fresh(rx)
      ensures State() == Registers(WrIdle, 0, false, seq(MAX_UDP_PORTS, _ => BitWord(false)), false, true, false, false)
    {
      wstate, waddr, txPushed, isr, isrMutex, ier, gie := WrIdle, 0, false, false, true, false, false;
      rx := new Word[MAX_UDP_PORTS](_ => BitWord(false));
      new;
      assert rx[..] == seq(MAX_UDP_PORTS, _ => BitWord(false));
    }

    /** The interrupt status block. */
    method ClockStatus(hs: bool, push: bool)
      modifies `isr, `isrMutex
      ensures isr == if hs && Decode(waddr).Isr? then old(isr) != old(isrMutex) else (ier && push) || old(isr)
      ensures isrMutex == !(hs && Decode(waddr).Isr?)
    {
      if hs && Decode(waddr) == Isr {
        isr := isr != isrMutex;
        isrMutex := false;
      } else {
        isr := (ier && push) || isr;
        isrMutex := true;
      }
    }

    /** The writable registers. */
    method ClockRegisters(hs: bool, bus: WriteBus)
      requires Valid() && |bus.wstrb| == 4
      modifies `txPushed, `ier, `gie, rx
      ensures var target, strobed := Decode(waddr), hs && bus.wstrb[0];
              && txPushed == (if strobed && target.TxPushed? then bus.wdata[0] else old(txPushed))
              && ier == (if strobed && target.Ier? then bus.wdata[0] else old(ier))
              && gie == (if strobed && target.Gie? then bus.wdata[0] else old(gie))
              && rx[..] == (if hs && target.RxControl? then
                              old(rx[..])[target.index := Merge(old(rx[..])[target.index], bus.wdata, bus.wstrb)]
                            else old(rx[..]))
    {
      if hs {
        match Decode(waddr)
        case TxPushed =>
          if bus.wstrb[0] {
            txPushed := bus.wdata[0];
          }
        case Ier =>
          if bus.wstrb[0] {
            ier := bus.wdata[0];
          }
        case Gie =>
          if bus.wstrb[0] {
            gie := bus.wdata[0];
          }
        case RxControl(index) =>
          rx[index] := Merge(rx[index], bus.wdata, bus.wstrb);
        case _ =>
      }
    }

    /** The write channel state machine. */
    method ClockWriteChannel(bus: WriteBus)
      modifies `wstate, `waddr
      ensures wstate == NextWriteState(old(wstate), bus)
      ensures waddr == if bus.awvalid && old(wstate).WrIdle? then bus.awaddr else old(waddr)
    {
      match wstate
      case WrIdle =>
        if bus.awvalid {
          waddr := bus.awaddr;
          wstate := WrData;
        }
      case WrData =>
        if bus.wvalid {
          wstate := WrResp;
        }
      case WrResp =>
        if bus.bready {
          wstate := WrIdle;
        }
    }

    method Clock(bus: WriteBus, push: bool)
      requires Valid() && |bus.wstrb| == 4
      modifies this, rx
      ensures Valid() && rx == old(rx)
      ensures State() == Next(old(State()), bus, push)
    {
      var hs := bus.wvalid && wstate == WrData;
      ClockStatus(hs, push);
      ClockRegisters(hs, bus);
      ClockWriteChannel(bus);
    }
  }
}
