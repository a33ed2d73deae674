/**
 Where a packet is when wlast pushes it, and what is stored in between, at any time in any run of the
 write engine on the controller's descriptors: the slot it names, and no other.
 */
module ReceiveStores {
  import opened Layout
  import opened Arithmetic
  import opened BurstPlan
  import opened Memory
  import opened Options
  import opened Stream
  import opened ReceivePulses
  import opened SlotFormat
  import W = WriteDma
  import P = WriteDmaProof
  import A = HeaderAdder
  import S = SlotRoundTrip

  /** The k-th frame as far as it has been consumed. */
  function FrameAt(f: Frames, k: nat): (frame: seq<Byte>)
    requires k <= |f.complete|
  {
    if k < |f.complete| then f.complete[k] else f.open
  }

  /** The k-th frame has ended or filled its descriptor, and memory has it at the descriptor's address. */
  ghost predicate SlotStored(ops: seq<W.Descriptor>, f: Frames, memory: seq<Byte>, k: nat) {
    && k < |ops| && k <= |f.complete|
    && var frame, op := FrameAt(f, k), ops[k];
       && (k < |f.complete| || op.len <= |frame|)
       && (op.addr + op.len <= |memory| ==>
             var n := Min(|frame|, op.len); memory[op.addr..op.addr + n] == frame[..n])
  }

  /** All bursts of the run are whole descriptors once none is being written. */
  lemma BurstsAreOps(m: W.Machine, ops: seq<W.Descriptor>, f: Frames, bursts: seq<Burst>, entries: seq<W.StatusEntry>)
    requires (m.phase.Idle? && |ops| == |f.complete|) || (m.phase.DropData? && |ops| == |f.complete| + 1)
    requires SlotOps(ops) && P.EntryInv(m, ops, f, bursts, entries) && P.PlanInv(AXI64, m, ops, bursts, entries)
    ensures |bursts| == |ops|
  {
    FinalsAreAlone(ops, bursts, entries);
    AllFinal(entries, 0);
    FinalsOfFinal(entries);
  }

  lemma OverwriteSlice(memory: seq<Byte>, addr: nat, bytes: seq<Byte>)
    requires addr + |bytes| <= |memory|
    ensures Overwrite(memory, addr, bytes)[addr..addr + |bytes|] == bytes
  {
  }

  /** When the last beat of a burst has been handed over, its slot holds the frame. */
  lemma SettledIsStored(m: W.Machine, ops: seq<W.Descriptor>, f: Frames, memory: seq<Byte>, now: seq<Byte>)
    requires m.phase.Idle? || m.phase.DropData?
    requires P.MachineInv(AXI64, m, ops, f) && P.MemoryInv(AXI64, m, ops, f, memory, now) && SlotOps(ops) && ops != []
    ensures SlotStored(ops, f, now, |ops| - 1)
  {
    var k := |ops| - 1;
    var frame, op := FrameAt(f, k), ops[k];
    var base := P.Store(AXI64, memory, ops, f.complete[..k]);
    assert Aligned(AXI64, op.addr) == op.addr;
    assert f.complete[..|f.complete|] == f.complete;
    assert now == Overwrite(base, op.addr, P.Stored(op, frame));
    if op.addr + op.len <= |now| {
      OverwriteSlice(base, op.addr, P.Stored(op, frame));
    }
  }

  lemma UnissuedIsSome(m: W.Machine)
    ensures m.opCount > 0 ==> P.Unissued(AXI64, m) != []
  {
    if m.opCount > 0 {
      PlanLength(AXI64, m.addr, m.opCount);
    }
  }

  lemma OneBurst(op: W.Descriptor)
    requires op.addr % SLOT == 0 && 0 < op.len <= SLOT
    ensures |P.PlanOf(AXI64, op)| == 1
  {
    assert Aligned(AXI64, op.addr) == op.addr;
    SlotIsOneBurst(op.addr, op.len);
  }

  /** A descriptor of one burst has nothing left to issue when its burst is being written. */
  lemma NothingLeft(m: W.Machine, ops: seq<W.Descriptor>, bursts: seq<Burst>, entries: seq<W.StatusEntry>)
    requires m.phase.Write? && SlotOps(ops) && P.PlanInv(AXI64, m, ops, bursts, entries)
    ensures m.opCount <= 0
  {
    var from := P.GroupStart(entries, |entries|);
    OneBurst(ops[|P.Finals(entries)|]);
    assert |bursts[from..] + P.Unissued(AXI64, m)| == 1 && |bursts[from..]| >= 1;
    UnissuedIsSome(m);
  }

  /** The machine that hands over the last beat of a burst comes to rest, or to drop the rest of the frame. */
  lemma LastPushSettles(m: W.Machine, i: W.Input, ready: bool, available: bool)
    requires (m.phase.Start? ==> 0 < m.opCount) && (m.phase.Write? ==> m.opCount <= 0)
    requires var fx := W.NextMachine(AXI64, m, i, ready, available).1; fx.push.Some? && fx.push.value.last
    ensures var m' := W.NextMachine(AXI64, m, i, ready, available).0; m'.phase.Idle? || m'.phase.DropData?
  {
  }

  /** Bursts that are over before beat `j` of the stream. */
  function Before(pushed: seq<Beat>, j: nat): (n: nat)
    requires j <= |pushed|
  {
    Pulses(P.LastOf(pushed[..j]))
  }

  /** Memory after the first `j` beats of the run. */
  ghost function MemoryAfter(h: W.History, memory: seq<Byte>, j: nat): (m: seq<Byte>)
    requires forall b <- h.bursts :: 0 < b.bytes
    requires j <= |h.pushed| <= |SlaveAddresses(AXI64, h.bursts)|
    ensures |m| == |memory|
  {
    SlaveMemory(memory, SlaveAddresses(AXI64, h.bursts), h.pushed[..j])
  }

  /** The engine has its addresses for all beats handed over. */
  ghost predicate Backed(h: W.History) {
    (forall b <- h.bursts :: 0 < b.bytes) && |h.pushed| <= |SlaveAddresses(AXI64, h.bursts)|
  }

  /** Beat `j` ends a burst: when it is over, the frame is in its slot. */
  ghost predicate IsStored(h: W.History, memory: seq<Byte>, j: nat)
    requires Backed(h) && j < |h.pushed|
  {
    SlotStored(h.ops, Split(h.consumed), MemoryAfter(h, memory, j + 1), Before(h.pushed, j))
  }

  lemma PulsesAppend(pushed: seq<Beat>, b: Beat)
    ensures Pulses(P.LastOf(pushed + [b])) == Pulses(P.LastOf(pushed)) + if b.last then 1 else 0
  {
    assert P.LastOf(pushed + [b]) == P.LastOf(pushed) + [b.last];
    PulsesConcat(P.LastOf(pushed), [b.last]);
  }

  /** All bursts are over, and there is one for each descriptor. */
  lemma LastIsCounted(e: W.Engine, h: W.History, memory: seq<Byte>)
    requires P.Inv(AXI64, e, h, memory) && SlotOps(h.ops) && (e.m.phase.Idle? || e.m.phase.DropData?)
    ensures Backed(h) && Pulses(P.LastOf(h.pushed)) == |h.ops|
  {
    var f := Split(h.consumed);
    BurstsAreOps(e.m, h.ops, f, h.bursts, h.entries);
    PulsesAreBursts(e.m, P.Cursor(AXI64, e.m, h.ops, f), h.bursts, h.pushed);
  }

  lemma BeforeLast(pushed: seq<Beat>)
    requires pushed != [] && pushed[|pushed| - 1].last
    ensures Before(pushed, |pushed| - 1) == Pulses(P.LastOf(pushed)) - 1
  {
    var j := |pushed| - 1;
    assert pushed == pushed[..j] + [pushed[j]];
    PulsesAppend(pushed[..j], pushed[j]);
  }

  /** After the push of a burst's last beat, from the invariant alone. */
  lemma LastIsStored(e: W.Engine, h: W.History, memory: seq<Byte>)
    requires P.Inv(AXI64, e, h, memory) && SlotOps(h.ops) && (e.m.phase.Idle? || e.m.phase.DropData?)
    requires h.pushed != [] && h.pushed[|h.pushed| - 1].last
    ensures Backed(h)
    ensures SlotStored(h.ops, Split(h.consumed), MemoryAfter(h, memory, |h.pushed|), Before(h.pushed, |h.pushed| - 1))
  {
    assert h.pushed[..|h.pushed|] == h.pushed;
    LastIsCounted(e, h, memory);
    BeforeLast(h.pushed);
    SettledIsStored(e.m, h.ops, Split(h.consumed), memory, MemoryAfter(h, memory, |h.pushed|));
  }

  /** What was stored stays so, whatever the engine consumes and issues later. */
  lemma StoredLater(ops: seq<W.Descriptor>, ops': seq<W.Descriptor>, f: Frames, f': Frames, memory: seq<Byte>, k: nat)
    requires SlotStored(ops, f, memory, k) && ops <= ops'
    requires |f.complete| <= |f'.complete| && forall n :: 0 <= n < |f.complete| ==> f'.complete[n] == f.complete[n]
    requires f.open <= FrameAt(f', |f.complete|)
    ensures SlotStored(ops', f', memory, k)
  {
    var n := Min(|FrameAt(f, k)|, ops[k].len);
    assert ops'[k] == ops[k];
    assert FrameAt(f', k)[..n] == FrameAt(f, k)[..n];
  }

  lemma ConsumedLater(consumed: seq<Beat>, b: Beat)
    ensures var f, f' := Split(consumed), Split(consumed + [b]);
            && |f.complete| <= |f'.complete| && (forall n :: 0 <= n < |f.complete| ==> f'.complete[n] == f.complete[n])
            && f.open <= FrameAt(f', |f.complete|)
  {
    SplitAppend(consumed, b);
  }

  /** What a cycle leaves of the history so far. */
  lemma RecordGrows(e: W.Engine, i: W.Input, h: W.History)
    requires P.Sound(e)
    ensures var h' := W.Record(AXI64, e, i, h);
            && h.pushed <= h'.pushed && h.bursts <= h'.bursts && h.ops <= h'.ops
            && (h'.consumed == h.consumed || h'.consumed == h.consumed + [i.beat])
  {
  }

  lemma SameBefore(h: W.History, h': W.History, memory: seq<Byte>, j: nat)
    requires Backed(h) && Backed(h') && h.pushed <= h'.pushed && h.bursts <= h'.bursts && j <= |h.pushed|
    ensures MemoryAfter(h', memory, j) == MemoryAfter(h, memory, j) && Before(h'.pushed, j) == Before(h.pushed, j)
  {
    assert h'.pushed[..j] == h.pushed[..j];
    P.EarlierMemory(AXI64, h.bursts, h'.bursts, memory, h.pushed[..j]);
  }

  /** One cycle later: what was stored stays so. */
  lemma StoredStep(e: W.Engine, i: W.Input, h: W.History, memory: seq<Byte>, j: nat)
    requires P.Sound(e) && Backed(h) && Backed(W.Record(AXI64, e, i, h)) && j < |h.pushed|
    requires IsStored(h, memory, j)
    ensures j < |W.Record(AXI64, e, i, h).pushed| && IsStored(W.Record(AXI64, e, i, h), memory, j)
  {
    var h' := W.Record(AXI64, e, i, h);
    RecordGrows(e, i, h);
    SameBefore(h, h', memory, j);
    SameBefore(h, h', memory, j + 1);
    ConsumedLater(h.consumed, i.beat);
    StoredLater(h.ops, h'.ops, Split(h.consumed), Split(h'.consumed), MemoryAfter(h, memory, j + 1),
                Before(h.pushed, j));
  }

  lemma SlotOpsBefore(e: W.Engine, i: W.Input, h: W.History)
    requires P.Sound(e) && SlotOps(W.Record(AXI64, e, i, h).ops)
    ensures SlotOps(h.ops)
  {
    var ops' := W.Record(AXI64, e, i, h).ops;
    assert forall k :: 0 <= k < |h.ops| ==> h.ops[k] == ops'[k];
  }

  /** A push with wlast leaves the machine settled. */
  lemma PushSettles(e: W.Engine, i: W.Input, h: W.History, memory: seq<Byte>)
    requires P.Inv(AXI64, e, h, memory) && P.Sound(e) && SlotOps(h.ops)
    requires var fx := W.Step(AXI64, e, i).1; fx.push.Some? && fx.push.value.last
    ensures var m' := W.Next(AXI64, e, i).m; m'.phase.Idle? || m'.phase.DropData?
  {
    if e.m.phase.Write? {
      NothingLeft(e.m, h.ops, h.bursts, h.entries);
    }
    LastPushSettles(e.m, i, !e.out.halfFull, e.s.available);
  }

  lemma InvBacks(e: W.Engine, h: W.History, memory: seq<Byte>)
    requires P.Inv(AXI64, e, h, memory)
    ensures Backed(h)
  {
  }

  /** The stream grows by what is pushed. */
  lemma PushedGrows(e: W.Engine, i: W.Input, h: W.History)
    requires P.Sound(e)
    ensures var h', push := W.Record(AXI64, e, i, h), W.Step(AXI64, e, i).1.push;
            && h.pushed <= h'.pushed && |h'.pushed| == |h.pushed| + (if push.Some? then 1 else 0)
            && (push.Some? ==> h'.pushed[|h.pushed|] == push.value)
  {
  }

  lemma NewIsStored(e: W.Engine, i: W.Input, h: W.History, memory: seq<Byte>)
    requires P.Inv(AXI64, e, h, memory) && P.Sound(e) && W.LegalInput(AXI64, i)
    requires SlotOps(W.Record(AXI64, e, i, h).ops)
    requires var fx := W.Step(AXI64, e, i).1; fx.push.Some? && fx.push.value.last
    ensures var h' := W.Record(AXI64, e, i, h);
            Backed(h') && |h'.pushed| == |h.pushed| + 1 && IsStored(h', memory, |h.pushed|)
  {
    P.InvStep(AXI64, e, i, h, memory);
    SlotOpsBefore(e, i, h);
    PushedGrows(e, i, h);
    PushSettles(e, i, h, memory);
    LastIsStored(W.Next(AXI64, e, i), W.Record(AXI64, e, i, h), memory);
  }

  lemma NextIsBacked(e: W.Engine, i: W.Input, h: W.History, memory: seq<Byte>)
    requires P.Inv(AXI64, e, h, memory) && P.Sound(e) && W.LegalInput(AXI64, i)
    ensures Backed(h) && Backed(W.Record(AXI64, e, i, h))
  {
    P.InvStep(AXI64, e, i, h, memory);
    InvBacks(e, h, memory);
    InvBacks(W.Next(AXI64, e, i), W.Record(AXI64, e, i, h), memory);
  }

  /**
   At any time in any run: when wlast has passed for the k-th time, the k-th frame has come to its end or
   filled its descriptor, and its first bytes are at the descriptor's address.
   */
  lemma {:induction false} WlastFindsFrame(start: W.Engine, inputs: seq<W.Input>, memory: seq<Byte>, j: nat)
    requires W.Reset(start) && P.LegalRun(AXI64, inputs) && SlotOps(P.Run(AXI64, start, inputs).1.ops)
    requires var h := P.Run(AXI64, start, inputs).1; j < |h.pushed| && h.pushed[j].last
    ensures Backed(P.Run(AXI64, start, inputs).1) && IsStored(P.Run(AXI64, start, inputs).1, memory, j)
  {
    var n := |inputs| - 1;
    var (e, h) := P.Run(AXI64, start, inputs[..n]);
    P.RunKeepsInv(AXI64, start, inputs[..n], memory);
    NextIsBacked(e, inputs[n], h, memory);
    SlotOpsBefore(e, inputs[n], h);
    PushedGrows(e, inputs[n], h);
    if j < |h.pushed| {
      WlastFindsFrame(start, inputs[..n], memory, j);
      StoredStep(e, inputs[n], h, memory, j);
    } else {
      NewIsStored(e, inputs[n], h, memory);
    }
  }

  // ---------------------------------------------------------------------------------------------
  // What is stored in between
  // ---------------------------------------------------------------------------------------------

  /** The two memories differ in this slot only. */
  ghost predicate DifferIn(memory: seq<Byte>, memory': seq<Byte>, addr: nat) {
    && |memory'| == |memory|
    && forall x :: 0 <= x < |memory| && !(addr <= x < addr + SLOT) ==> memory'[x] == memory[x]
  }

  /** Beat `j` stores into the slot of the descriptor whose wlast comes next. */
  ghost predicate IsConfined(h: W.History, memory: seq<Byte>, j: nat)
    requires Backed(h) && j < |h.pushed|
  {
    var k := Before(h.pushed, j);
    k < |h.ops| && DifferIn(MemoryAfter(h, memory, j), MemoryAfter(h, memory, j + 1), h.ops[k].addr)
  }

  lemma OnePulse(n: nat)
    requires 0 < n
    ensures Pulses(EndFlags(n)) == 1
  {
    NoPulses(EndFlags(n)[..n - 1]);
  }

  /** While a burst owes beats, all others are over. */
  lemma OwingIsCounted(m: W.Machine, at: nat, bursts: seq<Burst>, pushed: seq<Beat>)
    requires P.BeatInv(AXI64, m, at, bursts, pushed) && 0 < P.Owed(m)
    ensures Pulses(P.LastOf(pushed)) == |bursts| - 1
  {
    var flags := LastFlags(AXI64, bursts);
    PulsesOfBursts(AXI64, bursts);
    OnePulse(P.Owed(m));
    PulsesConcat(flags[..|pushed|], flags[|pushed|..]);
    assert flags == flags[..|pushed|] + flags[|pushed|..];
  }

  lemma WritingIsCounted(m: W.Machine, ops: seq<W.Descriptor>, f: Frames, bursts: seq<Burst>,
                         entries: seq<W.StatusEntry>)
    requires m.phase.Write? && SlotOps(ops) && |f.complete| < |ops|
    requires P.EntryInv(m, ops, f, bursts, entries) && P.PlanInv(AXI64, m, ops, bursts, entries)
    ensures |bursts| - 1 == |f.complete|
  {
    var from := P.GroupStart(entries, |entries|);
    OneBurst(ops[|P.Finals(entries)|]);
    assert |bursts[from..] + P.Unissued(AXI64, m)| == 1;
    FinalsAreAlone(ops, bursts, entries);
    AllFinal(entries, 0);
    FinalsOfFinal(entries);
  }

  lemma PaddingIsCounted(m: W.Machine, ops: seq<W.Descriptor>, f: Frames, bursts: seq<Burst>,
                         entries: seq<W.StatusEntry>)
    requires m.phase.FinishBurst? && SlotOps(ops) && |f.complete| == |ops|
    requires P.EntryInv(m, ops, f, bursts, entries) && P.PlanInv(AXI64, m, ops, bursts, entries)
    ensures |bursts| == |ops|
  {
    FinalsAreAlone(ops, bursts, entries);
    AllFinal(entries, 0);
    FinalsOfFinal(entries);
  }

  /** A beat of the write state goes to the slot being written. */
  lemma BeatIsInSlot(m: W.Machine, op: W.Descriptor, now: seq<Byte>, b: Beat)
    requires m.phase.Write? && P.WriteInv(AXI64, m, op) && op.addr % SLOT == 0 && op.len <= SLOT && |b.data| == 8
    ensures DifferIn(now, WriteLanes(now, Aligned(AXI64, op.addr) + m.length, b), op.addr)
  {
    assert Aligned(AXI64, op.addr) == op.addr;
    assert m.length < op.len;
  }

  lemma AddressOfBeat(m: W.Machine, at: nat, bursts: seq<Burst>, pushed: seq<Beat>)
    requires m.phase.Write? && P.BeatInv(AXI64, m, at, bursts, pushed) && 0 < P.Owed(m)
    ensures |pushed| < |SlaveAddresses(AXI64, bursts)| && SlaveAddresses(AXI64, bursts)[|pushed|] == at
  {
    var addrs := SlaveAddresses(AXI64, bursts);
    assert addrs[|pushed|] == addrs[|pushed|..][0];
  }

  /** Where a beat goes, and how many bursts are over before it. */
  ghost predicate GoesToSlot(ops: seq<W.Descriptor>, bursts: seq<Burst>, memory: seq<Byte>, pushed: seq<Beat>,
                             b: Beat) {
    && (forall b <- bursts :: 0 < b.bytes) && |pushed| < |SlaveAddresses(AXI64, bursts)|
    && var k, addrs := Pulses(P.LastOf(pushed)), SlaveAddresses(AXI64, bursts);
       var now := SlaveMemory(memory, addrs, pushed);
       k < |ops| && DifferIn(now, WriteLanes(now, addrs[|pushed|], b), ops[k].addr)
  }

  lemma WriteGoesToSlot(m: W.Machine, ops: seq<W.Descriptor>, f: Frames, memory: seq<Byte>, bursts: seq<Burst>,
                        pushed: seq<Beat>, b: Beat)
    requires m.phase.Write? && 0 < P.Owed(m) && |b.data| == 8 && SlotOps(ops) && P.MachineInv(AXI64, m, ops, f)
    requires P.BeatInv(AXI64, m, P.Cursor(AXI64, m, ops, f), bursts, pushed)
    requires |bursts| - 1 == |f.complete|
    ensures GoesToSlot(ops, bursts, memory, pushed, b)
  {
    var at := P.Cursor(AXI64, m, ops, f);
    OwingIsCounted(m, at, bursts, pushed);
    AddressOfBeat(m, at, bursts, pushed);
    BeatIsInSlot(m, ops[|f.complete|], SlaveMemory(memory, SlaveAddresses(AXI64, bursts), pushed), b);
  }

  lemma PaddingGoesNowhere(m: W.Machine, ops: seq<W.Descriptor>, f: Frames, memory: seq<Byte>, bursts: seq<Burst>,
                           pushed: seq<Beat>, entries: seq<W.StatusEntry>, b: Beat)
    requires m.phase.FinishBurst? && 0 < P.Owed(m) && SlotOps(ops) && P.MachineInv(AXI64, m, ops, f)
    requires b == Beat(seq(8, _ => 0), Mask(8, 0), m.outputLast)
    requires P.BeatInv(AXI64, m, P.Cursor(AXI64, m, ops, f), bursts, pushed)
    requires P.EntryInv(m, ops, f, bursts, entries) && P.PlanInv(AXI64, m, ops, bursts, entries)
    ensures GoesToSlot(ops, bursts, memory, pushed, b)
  {
    var addrs := SlaveAddresses(AXI64, bursts);
    OwingIsCounted(m, P.Cursor(AXI64, m, ops, f), bursts, pushed);
    PaddingIsCounted(m, ops, f, bursts, entries);
    P.PaddingStoresNothing(8, SlaveMemory(memory, addrs, pushed), addrs[|pushed|], m.outputLast);
  }

  /** What is handed over is a beat of the stream or padding. */
  lemma PushIsBeat(m: W.Machine, i: W.Input, ready: bool, available: bool)
    requires (m.phase.Start? ==> 0 < m.opCount) && W.LegalInput(AXI64, i)
    ensures var push := W.NextMachine(AXI64, m, i, ready, available).1.push;
            push.Some? ==>
              || (m.phase.Write? && |push.value.data| == 8)
              || (m.phase.FinishBurst? && push.value == Beat(seq(8, _ => 0), Mask(8, 0), m.outputLast))
  {
  }

  lemma SomeIsOwed(m: W.Machine, ops: seq<W.Descriptor>, f: Frames)
    requires P.MachineInv(AXI64, m, ops, f) && (m.phase.Write? || m.phase.FinishBurst?)
    ensures 0 < P.Owed(m)
  {
    if m.phase.Write? {
      P.LastBeatOfBurst(AXI64, m, ops[|f.complete|]);
    }
  }

  /** The push of a cycle. */
  lemma PushIsConfined(e: W.Engine, i: W.Input, h: W.History, memory: seq<Byte>, b: Beat)
    requires P.Inv(AXI64, e, h, memory) && P.Sound(e) && W.LegalInput(AXI64, i) && SlotOps(h.ops)
    requires W.Step(AXI64, e, i).1.push == Some(b)
    ensures GoesToSlot(h.ops, h.bursts, memory, h.pushed, b)
  {
    var f := Split(h.consumed);
    PushIsBeat(e.m, i, !e.out.halfFull, e.s.available);
    SomeIsOwed(e.m, h.ops, f);
    if e.m.phase.Write? {
      WritingIsCounted(e.m, h.ops, f, h.bursts, h.entries);
      WriteGoesToSlot(e.m, h.ops, f, memory, h.bursts, h.pushed, b);
    } else {
      PaddingGoesNowhere(e.m, h.ops, f, memory, h.bursts, h.pushed, h.entries, b);
    }
  }

  lemma LaterBursts(ops: seq<W.Descriptor>, ops': seq<W.Descriptor>, bursts: seq<Burst>, bursts': seq<Burst>,
                    memory: seq<Byte>, pushed: seq<Beat>, b: Beat)
    requires ops <= ops' && bursts <= bursts' && (forall x <- bursts' :: 0 < x.bytes)
    requires GoesToSlot(ops, bursts, memory, pushed, b)
    ensures var addrs' := SlaveAddresses(AXI64, bursts');
            && |pushed| < |addrs'| && Pulses(P.LastOf(pushed)) < |ops'|
            && DifferIn(SlaveMemory(memory, addrs', pushed), SlaveMemory(memory, addrs', pushed + [b]),
                        ops'[Pulses(P.LastOf(pushed))].addr)
  {
    SlaveMemoryAppend(memory, SlaveAddresses(AXI64, bursts), pushed, b);
    P.EarlierMemory(AXI64, bursts, bursts', memory, pushed);
    P.EarlierMemory(AXI64, bursts, bursts', memory, pushed + [b]);
  }

  /** The newest beat, in the history after it. */
  lemma NewIsConfined(e: W.Engine, i: W.Input, h: W.History, memory: seq<Byte>, b: Beat)
    requires P.Sound(e) && Backed(h) && Backed(W.Record(AXI64, e, i, h))
    requires W.Step(AXI64, e, i).1.push == Some(b) && GoesToSlot(h.ops, h.bursts, memory, h.pushed, b)
    ensures |W.Record(AXI64, e, i, h).pushed| == |h.pushed| + 1
    ensures IsConfined(W.Record(AXI64, e, i, h), memory, |h.pushed|)
  {
    var h' := W.Record(AXI64, e, i, h);
    assert h.bursts <= h'.bursts && h.ops <= h'.ops;
    LaterBursts(h.ops, h'.ops, h.bursts, h'.bursts, memory, h.pushed, b);
    assert h'.pushed == h.pushed + [b] && h'.pushed[..|h.pushed|] == h.pushed && h'.pushed[..|h'.pushed|] == h'.pushed;
  }

  lemma ConfinedStep(e: W.Engine, i: W.Input, h: W.History, memory: seq<Byte>, j: nat)
    requires P.Sound(e) && Backed(h) && Backed(W.Record(AXI64, e, i, h)) && j < |h.pushed| && IsConfined(h, memory, j)
    ensures j < |W.Record(AXI64, e, i, h).pushed| && IsConfined(W.Record(AXI64, e, i, h), memory, j)
  {
    RecordGrows(e, i, h);
    SameBefore(h, W.Record(AXI64, e, i, h), memory, j);
    SameBefore(h, W.Record(AXI64, e, i, h), memory, j + 1);
  }

  /** At any time in any run: each beat stores into the slot of the packet whose wlast comes next, and nowhere else. */
  lemma {:induction false} BeatIsConfined(start: W.Engine, inputs: seq<W.Input>, memory: seq<Byte>, j: nat)
    requires W.Reset(start) && P.LegalRun(AXI64, inputs) && SlotOps(P.Run(AXI64, start, inputs).1.ops)
    requires j < |P.Run(AXI64, start, inputs).1.pushed|
    ensures Backed(P.Run(AXI64, start, inputs).1) && IsConfined(P.Run(AXI64, start, inputs).1, memory, j)
  {
    var n := |inputs| - 1;
    var (e, h) := P.Run(AXI64, start, inputs[..n]);
    P.RunKeepsInv(AXI64, start, inputs[..n], memory);
    NextIsBacked(e, inputs[n], h, memory);
    SlotOpsBefore(e, inputs[n], h);
    PushedGrows(e, inputs[n], h);
    if j < |h.pushed| {
      BeatIsConfined(start, inputs[..n], memory, j);
      ConfinedStep(e, inputs[n], h, memory, j);
    } else {
      var b := W.Step(AXI64, e, inputs[n]).1.push.value;
      PushIsConfined(e, inputs[n], h, memory, b);
      NewIsConfined(e, inputs[n], h, memory, b);
    }
  }

  // ---------------------------------------------------------------------------------------------
  // In terms of packets
  // ---------------------------------------------------------------------------------------------

  /** The frames consumed are images, and the one being consumed is the beginning of the next. */
  ghost predicate Feeds(f: Frames, sent: seq<Packet>) {
    && S.AreFirst(f.complete, S.ImagesOf(sent))
    && (f.open != [] ==> |f.complete| < |sent| && f.open <= Image(sent[|f.complete|]))
  }

  lemma FeedsBefore(consumed: seq<Beat>, b: Beat, sent: seq<Packet>)
    requires Feeds(Split(consumed + [b]), sent)
    ensures Feeds(Split(consumed), sent)
  {
    var f := Split(consumed);
    SplitAppend(consumed, b);
    if b.last {
      assert Split(consumed + [b]).complete[|f.complete|] == f.open + Kept(b);
    }
  }

  lemma {:induction false} FeedsEarlier(consumed: seq<Beat>, n: nat, sent: seq<Packet>)
    requires n <= |consumed| && Feeds(Split(consumed), sent)
    ensures Feeds(Split(consumed[..n]), sent)
  {
    if n == |consumed| {
      assert consumed[..n] == consumed;
    } else {
      var m := |consumed| - 1;
      assert consumed == consumed[..m] + [consumed[m]];
      FeedsBefore(consumed[..m], consumed[m], sent);
      FeedsEarlier(consumed[..m], n, sent);
      assert consumed[..m][..n] == consumed[..n];
    }
  }

  /** So it is with any part of what the header adder makes of the packets. */
  lemma AdderFeeds(adder: seq<A.Input>, sent: seq<Packet>, n: nat)
    requires A.Steady(adder)
    requires var (r, h) := A.Run(adder);
             r.state.Idle? && S.ArePackets(h.headers, CutFrames(h.consumed).complete, sent) && n <= |h.emitted|
    ensures Feeds(Split(A.Run(adder).1.emitted[..n]), sent)
  {
    S.FramesAreImages(adder, sent, A.Run(adder).1.emitted);
    FeedsEarlier(A.Run(adder).1.emitted, n, sent);
  }

  lemma StoredHolds(op: W.Descriptor, f: Frames, memory: seq<Byte>, ops: seq<W.Descriptor>, sent: seq<Packet>, k: nat)
    requires SlotStored(ops, f, memory, k) && Feeds(f, sent) && k < |sent| && op == ops[k]
    requires S.SlotDescriptor(op, |sent[k].payload| + A.UDP_OVERHEAD) && op.addr + SLOT <= |memory|
    ensures Holds(memory[op.addr..op.addr + SLOT], sent[k])
  {
    var frame, image := FrameAt(f, k), Image(sent[k]);
    var n, m := Min(|frame|, op.len), Min(SLOT, |image|);
    assert frame <= image && m <= n;
    assert memory[op.addr..op.addr + SLOT][..m] == memory[op.addr..op.addr + n][..m];
    assert frame[..n][..m] == image[..m];
  }

  /** What a push finds: when wlast passes, the slot of its descriptor holds its packet. */
  lemma WlastFindsPacket(start: W.Engine, inputs: seq<W.Input>, memory: seq<Byte>, sent: seq<Packet>, j: nat)
    requires W.Reset(start) && P.LegalRun(AXI64, inputs) && SlotOps(P.Run(AXI64, start, inputs).1.ops)
    requires var h := P.Run(AXI64, start, inputs).1;
             && j < |h.pushed| && h.pushed[j].last && Feeds(Split(h.consumed), sent)
             && var k := Before(h.pushed, j);
                && k < |h.ops| && k < |sent| && h.ops[k].addr + SLOT <= |memory|
                && S.SlotDescriptor(h.ops[k], |sent[k].payload| + A.UDP_OVERHEAD)
    ensures var h := P.Run(AXI64, start, inputs).1;
            var k := Before(h.pushed, j);
            && Backed(h)
            && Holds(MemoryAfter(h, memory, j + 1)[h.ops[k].addr..h.ops[k].addr + SLOT], sent[k])
  {
    var h := P.Run(AXI64, start, inputs).1;
    var k := Before(h.pushed, j);
    WlastFindsFrame(start, inputs, memory, j);
    StoredHolds(h.ops[k], Split(h.consumed), MemoryAfter(h, memory, j + 1), h.ops, sent, k);
  }
}
