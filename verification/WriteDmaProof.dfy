/** Functional correctness of the write engine. */
module WriteDmaProof {
  import opened Arithmetic
  import opened BurstPlan
  import opened Options
  import opened OutputFifo
  import opened Stream
  import opened AxiResponse
  import opened Memory
  import opened WriteDma

  // ---------------------------------------------------------------------------------------------
  // What the engine is for, said without its registers
  // ---------------------------------------------------------------------------------------------

  /** The part of a frame that a descriptor stores. */
  function Stored(op: Descriptor, frame: seq<Byte>): (bytes: seq<Byte>) {
    frame[..Min(|frame|, op.len)]
  }

  /** Memory after the i-th frame went to the i-th descriptor, for every frame. */
  function Store(bus: Bus, memory: seq<Byte>, ops: seq<Descriptor>, frames: seq<seq<Byte>>): (m: seq<Byte>)
    requires bus.Valid() && |frames| <= |ops|
    ensures |m| == |memory|
  {
    if frames == [] then memory
    else
      var n := |frames| - 1;
      Overwrite(Store(bus, memory, ops, frames[..n]), Aligned(bus, ops[n].addr), Stored(ops[n], frames[n]))
  }

  /** What is reported for each descriptor: the number of bytes stored, and its tag. */
  function Results(ops: seq<Descriptor>, frames: seq<seq<Byte>>): (r: seq<(nat, nat)>)
    requires |frames| <= |ops|
  {
    seq(|frames|, i requires 0 <= i < |frames| => (Min(|frames[i]|, ops[i].len) as nat, ops[i].tag))
  }

  /** The final entry of each descriptor. */
  function Finals(entries: seq<StatusEntry>): (r: seq<(nat, nat)>) {
    if entries == [] then []
    else
      var e := entries[|entries| - 1];
      Finals(entries[..|entries| - 1]) + if e.last then [(e.len, e.tag)] else []
  }

  function LastOf(beats: seq<Beat>): (flags: seq<bool>) {
    seq(|beats|, k requires 0 <= k < |beats| => beats[k].last)
  }

  // ---------------------------------------------------------------------------------------------
  // The machine
  // ---------------------------------------------------------------------------------------------

  ghost predicate LegalOps(bus: Bus, ops: seq<Descriptor>) {
    forall i :: 0 <= i < |ops| ==> 0 < ops[i].len && ops[i].addr + ops[i].len <= bus.space
  }

  predicate Busy(m: Machine) { m.phase.Start? || m.phase.Write? || m.phase.DropData? }

  ghost predicate StartInv(bus: Bus, m: Machine, op: Descriptor)
    requires bus.Valid()
  {
    && m.length < op.len
    && m.addr == Aligned(bus, op.addr) + m.length
    && m.addr % bus.width == 0
    && m.opCount == op.len - m.length
    && m.addr + m.opCount <= bus.space
    && m.length % bus.width == 0
  }

  /** Bytes of the current burst that are still to come. */
  function Left(m: Machine, op: Descriptor): int { op.len - m.opCount - m.length }

  ghost predicate WriteInv(bus: Bus, m: Machine, op: Descriptor)
    requires bus.Valid()
  {
    && 0 < Left(m, op) && 0 <= m.opCount
    && m.length % bus.width == 0
    && m.inCount == m.outCount == (Left(m, op) - 1) / bus.width
    && m.inputActive
    && (m.outputLast <==> m.outCount == 0)
    && (m.lastTransfer <==> m.opCount == 0)
    && (m.opCount > 0 ==>
          && Left(m, op) % bus.width == 0
          && m.addr == Aligned(bus, op.addr) + op.len - m.opCount
          && m.addr % bus.width == 0)
  }

  ghost predicate MachineInv(bus: Bus, m: Machine, ops: seq<Descriptor>, f: Frames)
    requires bus.Valid()
  {
    && LegalOps(bus, ops)
    && (m.tready ==> m.phase.Write? || m.phase.DropData?)
    && (m.phase.DropData? ==> m.tready)
    && (m.descReady ==> m.phase.Idle?)
    && if Busy(m) then
         && |ops| == |f.complete| + 1
         && var op := ops[|f.complete|];
            && m.tag == op.tag
            && m.lastOffset == op.len % bus.width
            && (m.phase.DropData? ==> |f.open| >= op.len)
            && (!m.phase.DropData? ==> |f.open| == m.length && (m.firstCycle <==> m.length == 0))
            && (m.phase.Start? ==> StartInv(bus, m, op))
            && (m.phase.Write? ==> WriteInv(bus, m, op))
       else
         && |ops| == |f.complete|
         && f.open == []
         && (m.phase.FinishBurst? ==> 0 <= m.outCount && (m.outputLast <==> m.outCount == 0))
  }

  /** The frames after this cycle. */
  ghost function Consume(m: Machine, i: Input, f: Frames): (f': Frames) {
    if m.tready && i.tvalid then
      if i.beat.last then Frames(f.complete + [f.open + Kept(i.beat)], [])
      else Frames(f.complete, f.open + Kept(i.beat))
    else f
  }

  lemma KeptLength(w: nat, b: Beat)
    requires WellFormed(w, b)
    ensures Kept(b) == b.data[..Lead(b.keep)] && |Kept(b)| == Lead(b.keep) <= w
  {
  }

  lemma IdleMachine(bus: Bus, m: Machine, i: Input, ops: seq<Descriptor>, f: Frames, available: bool)
    requires bus.Valid() && LegalInput(bus, i) && MachineInv(bus, m, ops, f) && m.phase.Idle?
    ensures MachineInv(bus, NextIdle(bus, m, i, available),
                       if m.descReady && i.descValid then ops + [i.desc] else ops, f)
  {
    SmallQuotient(0, bus.width);
  }

  lemma StartMachine(bus: Bus, m: Machine, i: Input, ops: seq<Descriptor>, f: Frames, ready: bool, available: bool)
    requires bus.Valid() && LegalInput(bus, i) && MachineInv(bus, m, ops, f) && m.phase.Start?
    ensures MachineInv(bus, NextStart(bus, m, i, ready, available).0, ops, f)
  {
    TransferIsLegal(bus, m.addr, m.opCount);
    var t := Transfer(bus, m.addr, m.opCount);
    if t < m.opCount {
      TransferEndsAligned(bus, m.addr, m.opCount);
      SmallQuotient(m.addr + t, bus.space);
    }
  }

  /** How much of a beat is stored: what it carries, up to the end of the descriptor. */
  function Share(m: Machine, i: Input, op: Descriptor): int {
    Min(Lead(i.beat.keep), op.len - m.length)
  }

  lemma LastBeatOfBurst(bus: Bus, m: Machine, op: Descriptor)
    requires bus.Valid() && WriteInv(bus, m, op) && m.lastOffset == op.len % bus.width
    ensures m.outCount == 0 <==> Left(m, op) <= bus.width
    ensures m.outCount == 0 && m.opCount > 0 ==> Left(m, op) == bus.width
    ensures m.outCount == 0 && m.opCount == 0 ==>
              Left(m, op) == if m.lastOffset > 0 then m.lastOffset else bus.width
    ensures m.outCount > 0 ==> (Left(m, op) - bus.width - 1) / bus.width == m.outCount - 1
    ensures (Left(m, op) - bus.width) % bus.width == Left(m, op) % bus.width
    ensures m.outCount >= 0
  {
    var w, r := bus.width, Left(m, op);
    QuotientBound(r - 1, w, 1);
    AddMultiple(r - w, w, 1);
    AddMultiple(r - w - 1, w, 1);
    QuotientIsMonotone(0, r - 1, w);
    SmallQuotient(0, w);
    if m.opCount == 0 {
      SumOfMultiples(m.length, r, w);
    }
    if r < w {
      SmallQuotient(r, w);
    } else if r == w {
      MultipleIsDivisible(w, 1);
    }
  }

  lemma AnyFromMask(w: nat, keep: seq<bool>, k: nat)
    requires |keep| == w && keep == Mask(w, Lead(keep)) && k <= w
    ensures AnyFrom(keep, k) <==> k < Lead(keep)
  {
    if k < Lead(keep) {
      assert keep[Lead(keep) - 1];
    }
  }

  /** Whatever branch is taken in WRITE, the strobes select exactly the beat's share. */
  lemma WriteEffect(bus: Bus, m: Machine, i: Input, op: Descriptor, ready: bool, available: bool)
    requires bus.Valid() && LegalInput(bus, i) && WriteInv(bus, m, op) && m.lastOffset == op.len % bus.width
    requires m.tready && i.tvalid
    ensures var (m', fx) := NextWrite(bus, m, i, ready, available);
            var s := Share(m, i, op);
            && 0 <= s <= bus.width
            && fx.push == Some(Beat(i.beat.data, Mask(bus.width, s), m.outputLast))
            && fx.issue.None?
            && m'.length == m.length + s
            && fx.status == (if i.beat.last || m.outputLast then
                               Some(StatusEntry(m.length + s, m.tag, i.beat.last || m.opCount == 0))
                             else None)
  {
    LastBeatOfBurst(bus, m, op);
    AnyFromMask(bus.width, i.beat.keep, m.lastOffset) by {
      SmallQuotient(0, bus.width);
    }
  }

  lemma WriteMachine(bus: Bus, m: Machine, i: Input, ops: seq<Descriptor>, f: Frames, ready: bool, available: bool)
    requires bus.Valid() && LegalInput(bus, i) && MachineInv(bus, m, ops, f) && m.phase.Write?
    ensures MachineInv(bus, NextWrite(bus, m, i, ready, available).0, ops, Consume(m, i, f))
  {
    if m.tready && i.tvalid {
      var op := ops[|f.complete|];
      WriteEffect(bus, m, i, op, ready, available);
      LastBeatOfBurst(bus, m, op);
      KeptLength(bus.width, i.beat);
      AddMultiple(m.length, bus.width, 1);
    }
  }

  lemma FinishMachine(bus: Bus, m: Machine, i: Input, ops: seq<Descriptor>, f: Frames, ready: bool, available: bool)
    requires bus.Valid() && LegalInput(bus, i) && MachineInv(bus, m, ops, f) && m.phase.FinishBurst?
    ensures MachineInv(bus, NextFinish(bus, m, i, ready, available).0, ops, f)
  {
  }

  lemma DropMachine(bus: Bus, m: Machine, i: Input, ops: seq<Descriptor>, f: Frames, available: bool)
    requires bus.Valid() && LegalInput(bus, i) && MachineInv(bus, m, ops, f) && m.phase.DropData?
    ensures MachineInv(bus, NextDrop(m, i, available), ops, Consume(m, i, f))
  {
  }

  // ---------------------------------------------------------------------------------------------
  // The beats and the bursts they belong to
  // ---------------------------------------------------------------------------------------------

  /** Beats that the issued bursts still owe. */
  function Owed(m: Machine): int {
    if m.phase.Write? || m.phase.FinishBurst? then m.outCount + 1 else 0
  }

  /** `at` is the address of the next beat while data is being written. */
  ghost predicate BeatInv(bus: Bus, m: Machine, at: nat, bursts: seq<Burst>, pushed: seq<Beat>)
    requires 0 < bus.width
  {
    && (forall b <- bursts :: 0 < b.bytes)
    && var addrs, flags := SlaveAddresses(bus, bursts), LastFlags(bus, bursts);
       && 0 <= Owed(m)
       && |addrs| == |flags| == |pushed| + Owed(m)
       && LastOf(pushed) == flags[..|pushed|]
       && flags[|pushed|..] == EndFlags(Owed(m))
       && (m.phase.Write? ==> addrs[|pushed|..] == Steps(at, bus.width, Owed(m)))
  }

  lemma BeatsAfterIssue(bus: Bus, m: Machine, m': Machine, at: nat, bursts: seq<Burst>, pushed: seq<Beat>, b: Burst)
    requires 0 < bus.width && 0 < b.bytes && Owed(m) == 0 && BeatInv(bus, m, at, bursts, pushed)
    requires m'.phase.Write? && m'.outCount + 1 == bus.Beats(b.bytes)
    ensures BeatInv(bus, m', b.addr, bursts + [b], pushed)
  {
    assert (bursts + [b])[..|bursts|] == bursts;
    assert LastFlags(bus, bursts)[..|pushed|] == LastFlags(bus, bursts);
  }

  lemma BeatsAfterPush(bus: Bus, m: Machine, m': Machine, at: nat, bursts: seq<Burst>, pushed: seq<Beat>, b: Beat)
    requires 0 < bus.width && 0 < Owed(m) && BeatInv(bus, m, at, bursts, pushed)
    requires b.last == (m.outCount == 0) && Owed(m') == m.outCount && (m'.phase.Write? ==> m.phase.Write?)
    ensures BeatInv(bus, m', at + bus.width, bursts, pushed + [b])
    ensures m.phase.Write? ==> SlaveAddresses(bus, bursts)[|pushed|] == at
  {
    var addrs, flags, n := SlaveAddresses(bus, bursts), LastFlags(bus, bursts), Owed(m);
    assert flags[|pushed|] == flags[|pushed|..][0] == EndFlags(n)[0];
    assert LastOf(pushed + [b]) == LastOf(pushed) + [b.last];
    assert flags[..|pushed| + 1] == flags[..|pushed|] + [flags[|pushed|]];
    assert flags[|pushed| + 1..] == flags[|pushed|..][1..];
    assert EndFlags(n)[1..] == EndFlags(n - 1);
    if m.phase.Write? {
      assert addrs[|pushed|] == addrs[|pushed|..][0] == at;
      assert addrs[|pushed| + 1..] == addrs[|pushed|..][1..];
      StepsTail(at, bus.width, n);
    }
  }

  lemma StepsTail(addr: nat, width: nat, n: nat)
    requires 0 < n
    ensures Steps(addr, width, n)[1..] == Steps(addr + width, width, n - 1)
  {
    forall k | 0 <= k < n - 1 ensures addr + (k + 1) * width == addr + width + k * width {}
  }

  // ---------------------------------------------------------------------------------------------
  // Memory
  // ---------------------------------------------------------------------------------------------

  /** `now` holds every complete frame, and the stored part of the open one. */
  ghost predicate MemoryInv(bus: Bus, m: Machine, ops: seq<Descriptor>, f: Frames, memory: seq<Byte>, now: seq<Byte>)
    requires bus.Valid() && |f.complete| <= |ops| && (Busy(m) ==> |f.complete| < |ops|)
  {
    var base := Store(bus, memory, ops, f.complete);
    if Busy(m) then
      var op := ops[|f.complete|];
      now == Overwrite(base, Aligned(bus, op.addr), Stored(op, f.open))
    else
      now == base
  }

  lemma {:induction false} StoreIgnoresLater(bus: Bus, memory: seq<Byte>, ops: seq<Descriptor>, d: Descriptor,
                                             frames: seq<seq<Byte>>)
    requires bus.Valid() && |frames| <= |ops|
    ensures Store(bus, memory, ops + [d], frames) == Store(bus, memory, ops, frames)
  {
    if frames != [] {
      StoreIgnoresLater(bus, memory, ops, d, frames[..|frames| - 1]);
    }
  }

  lemma StoreAppend(bus: Bus, memory: seq<Byte>, ops: seq<Descriptor>, frames: seq<seq<Byte>>, frame: seq<Byte>)
    requires bus.Valid() && |frames| < |ops|
    ensures var op := ops[|frames|];
            Store(bus, memory, ops, frames + [frame]) ==
            Overwrite(Store(bus, memory, ops, frames), Aligned(bus, op.addr), Stored(op, frame))
  {
    assert (frames + [frame])[..|frames|] == frames;
  }

  lemma MemoryAfterAccept(bus: Bus, m: Machine, m': Machine, ops: seq<Descriptor>, d: Descriptor, f: Frames,
                          memory: seq<Byte>, now: seq<Byte>)
    requires bus.Valid() && |f.complete| == |ops| && f.open == [] && !Busy(m) && Busy(m')
    requires MemoryInv(bus, m, ops, f, memory, now)
    ensures MemoryInv(bus, m', ops + [d], f, memory, now)
  {
    StoreIgnoresLater(bus, memory, ops, d, f.complete);
    OverwriteNothing(now, Aligned(bus, d.addr));
  }

  /** The share of a beat, stored behind what the frame already brought, is the stored part of the longer frame. */
  lemma StoreShare(base: seq<Byte>, addr: int, op: Descriptor, open: seq<Byte>, w: nat, b: Beat, s: nat)
    requires WellFormed(w, b) && |open| < op.len && s == Min(Lead(b.keep), op.len - |open|)
    ensures WriteLanes(Overwrite(base, addr, Stored(op, open)), addr + |open|, Beat(b.data, Mask(w, s), b.last))
         == Overwrite(base, addr, Stored(op, open + Kept(b)))
  {
    KeptLength(w, b);
    var lane := Beat(b.data, Mask(w, s), b.last);
    WriteMasked(Overwrite(base, addr, Stored(op, open)), addr + |open|, lane, s);
    assert Stored(op, open) == open;
    OverwriteAppend(base, addr, open, b.data[..s]);
    assert Stored(op, open + Kept(b)) == open + b.data[..s];
  }

  /** Beats past the end of the descriptor change nothing. */
  lemma StoredIsSettled(op: Descriptor, open: seq<Byte>, more: seq<Byte>)
    requires |open| >= op.len
    ensures Stored(op, open + more) == Stored(op, open)
  {
  }

  lemma MemoryAfterBeat(bus: Bus, m: Machine, m': Machine, i: Input, ops: seq<Descriptor>, f: Frames,
                        memory: seq<Byte>, now: seq<Byte>, now': seq<Byte>)
    requires bus.Valid() && Busy(m) && |f.complete| < |ops| && m.tready && i.tvalid
    requires Busy(m') == !i.beat.last
    requires MemoryInv(bus, m, ops, f, memory, now)
    requires var op := ops[|f.complete|];
             now' == Overwrite(Store(bus, memory, ops, f.complete), Aligned(bus, op.addr),
                               Stored(op, f.open + Kept(i.beat)))
    ensures MemoryInv(bus, m', ops, Consume(m, i, f), memory, now')
  {
    if i.beat.last {
      StoreAppend(bus, memory, ops, f.complete, f.open + Kept(i.beat));
    }
  }

  /** A padding beat writes nothing. */
  lemma PaddingStoresNothing(w: nat, memory: seq<Byte>, addr: int, last: bool)
    ensures WriteLanes(memory, addr, Beat(seq(w, _ => 0), Mask(w, 0), last)) == memory
  {
  }

  // ---------------------------------------------------------------------------------------------
  // Status entries
  // ---------------------------------------------------------------------------------------------

  /** One entry per burst whose data is complete, and one final entry per descriptor. */
  ghost predicate EntryInv(m: Machine, ops: seq<Descriptor>, f: Frames, bursts: seq<Burst>, entries: seq<StatusEntry>)
    requires |f.complete| <= |ops| && (Busy(m) ==> |f.complete| < |ops|)
  {
    && |bursts| == |entries| + (if m.phase.Write? then 1 else 0)
    && Finals(entries) == Results(ops, f.complete)
         + if m.phase.DropData? then [(ops[|f.complete|].len, ops[|f.complete|].tag)] else []
  }

  lemma FinalsAppend(entries: seq<StatusEntry>, e: StatusEntry)
    ensures Finals(entries + [e]) == Finals(entries) + if e.last then [(e.len, e.tag)] else []
  {
    assert (entries + [e])[..|entries|] == entries;
  }

  lemma ResultsAppend(ops: seq<Descriptor>, frames: seq<seq<Byte>>, frame: seq<Byte>)
    requires |frames| < |ops|
    ensures var op := ops[|frames|];
            Results(ops, frames + [frame]) == Results(ops, frames) + [(Min(|frame|, op.len) as nat, op.tag)]
  {
  }

  lemma EntriesAfterAccept(m: Machine, m': Machine, ops: seq<Descriptor>, d: Descriptor, f: Frames,
                           bursts: seq<Burst>, entries: seq<StatusEntry>)
    requires |f.complete| == |ops| && m.phase.Idle? && m'.phase.Start? && EntryInv(m, ops, f, bursts, entries)
    ensures EntryInv(m', ops + [d], f, bursts, entries)
  {
    assert Results(ops + [d], f.complete) == Results(ops, f.complete);
  }

  lemma EntriesAfterWrite(bus: Bus, m: Machine, i: Input, ops: seq<Descriptor>, f: Frames, ready: bool, available: bool,
                          bursts: seq<Burst>, entries: seq<StatusEntry>)
    requires bus.Valid() && LegalInput(bus, i) && MachineInv(bus, m, ops, f) && m.phase.Write?
    requires EntryInv(m, ops, f, bursts, entries) && m.tready && i.tvalid
    ensures var (m', fx) := NextWrite(bus, m, i, ready, available);
            var f' := Consume(m, i, f);
            && |f'.complete| <= |ops| && (Busy(m') ==> |f'.complete| < |ops|)
            && EntryInv(m', ops, f', bursts, entries + Optional(fx.status))
  {
    var op := ops[|f.complete|];
    WriteEffect(bus, m, i, op, ready, available);
    LastBeatOfBurst(bus, m, op);
    KeptLength(bus.width, i.beat);
    var fx := NextWrite(bus, m, i, ready, available).1;
    if fx.status.Some? {
      FinalsAppend(entries, fx.status.value);
    } else {
      assert entries + Optional(fx.status) == entries;
    }
    if i.beat.last {
      ResultsAppend(ops, f.complete, f.open + Kept(i.beat));
    }
  }

  lemma EntriesAfterDrop(m: Machine, m': Machine, i: Input, ops: seq<Descriptor>, f: Frames,
                         bursts: seq<Burst>, entries: seq<StatusEntry>)
    requires |f.complete| < |ops| && m.phase.DropData? && m.tready && i.tvalid
    requires |f.open| >= ops[|f.complete|].len
    requires m'.phase == if i.beat.last then Idle else DropData
    requires EntryInv(m, ops, f, bursts, entries)
    ensures EntryInv(m', ops, Consume(m, i, f), bursts, entries)
  {
    if i.beat.last {
      ResultsAppend(ops, f.complete, f.open + Kept(i.beat));
    }
  }

  // ---------------------------------------------------------------------------------------------
  // The bursts follow the plan
  // ---------------------------------------------------------------------------------------------

  /** The first entry of the descriptor that entry `n` belongs to. */
  function GroupStart(entries: seq<StatusEntry>, n: nat): (k: nat)
    requires n <= |entries|
    ensures k <= n
  {
    if n == 0 || entries[n - 1].last then n else GroupStart(entries, n - 1)
  }

  lemma {:induction false} GroupStartIgnoresLater(entries: seq<StatusEntry>, e: StatusEntry, n: nat)
    requires n <= |entries|
    ensures GroupStart(entries + [e], n) == GroupStart(entries, n)
  {
    if n != 0 && !entries[n - 1].last {
      GroupStartIgnoresLater(entries, e, n - 1);
    }
  }

  function PlanOf(bus: Bus, op: Descriptor): (bursts: seq<Burst>)
    requires bus.Valid()
  {
    Plan(bus, Aligned(bus, op.addr), op.len)
  }

  /** The bursts up to the final entry `n` are the first ones of their descriptor's plan. */
  ghost predicate GroupIsPlanned(bus: Bus, ops: seq<Descriptor>, bursts: seq<Burst>, entries: seq<StatusEntry>, n: nat)
    requires bus.Valid() && n < |entries| <= |bursts|
  {
    var k := |Finals(entries[..n])|;
    k < |ops| && bursts[GroupStart(entries, n)..n + 1] <= PlanOf(bus, ops[k])
  }

  /** The part of the plan not yet issued. */
  function Unissued(bus: Bus, m: Machine): (bursts: seq<Burst>)
    requires bus.Valid()
  {
    if m.opCount > 0 then Plan(bus, m.addr, m.opCount) else []
  }

  ghost predicate PlanInv(bus: Bus, m: Machine, ops: seq<Descriptor>, bursts: seq<Burst>, entries: seq<StatusEntry>)
    requires bus.Valid()
  {
    var from, k := GroupStart(entries, |entries|), |Finals(entries)|;
    && |bursts| == |entries| + (if m.phase.Write? then 1 else 0)
    && (forall n :: 0 <= n < |entries| && entries[n].last ==> GroupIsPlanned(bus, ops, bursts, entries, n))
    && (if m.phase.Start? || m.phase.Write? then
          k < |ops| && bursts[from..] + Unissued(bus, m) == PlanOf(bus, ops[k])
        else
          from == |entries|)
  }

  lemma PlanAfterAccept(bus: Bus, m: Machine, m': Machine, ops: seq<Descriptor>, d: Descriptor,
                        bursts: seq<Burst>, entries: seq<StatusEntry>)
    requires bus.Valid() && m.phase.Idle? && m'.phase.Start? && 0 < d.len && |Finals(entries)| == |ops|
    requires m'.addr == Aligned(bus, d.addr) && m'.opCount == d.len
    requires PlanInv(bus, m, ops, bursts, entries)
    ensures PlanInv(bus, m', ops + [d], bursts, entries)
  {
    assert bursts[|entries|..] == [];
  }

  lemma UnissuedStep(bus: Bus, m: Machine, m': Machine, t: nat)
    requires bus.Valid() && 0 < t <= m.opCount && m.addr + m.opCount <= bus.space
    requires m'.opCount == m.opCount - t && m'.addr == (m.addr + t) % bus.space
    requires Plan(bus, m.addr, m.opCount) == [Burst(m.addr, t)] + Plan(bus, m.addr + t, m.opCount - t)
    ensures Unissued(bus, m) == [Burst(m.addr, t)] + Unissued(bus, m')
  {
    if t < m.opCount {
      SmallQuotient(m.addr + t, bus.space);
      assert m'.addr == m.addr + t;
    } else {
      assert Plan(bus, m.addr + t, 0) == [];
    }
  }

  lemma GroupsSurviveIssue(bus: Bus, ops: seq<Descriptor>, bursts: seq<Burst>, b: Burst, entries: seq<StatusEntry>)
    requires bus.Valid() && |entries| <= |bursts|
    requires forall n :: 0 <= n < |entries| && entries[n].last ==> GroupIsPlanned(bus, ops, bursts, entries, n)
    ensures forall n :: 0 <= n < |entries| && entries[n].last ==> GroupIsPlanned(bus, ops, bursts + [b], entries, n)
  {
    forall n | 0 <= n < |entries| && entries[n].last ensures GroupIsPlanned(bus, ops, bursts + [b], entries, n) {
      assert GroupIsPlanned(bus, ops, bursts, entries, n);
      assert (bursts + [b])[GroupStart(entries, n)..n + 1] == bursts[GroupStart(entries, n)..n + 1];
    }
  }

  lemma PlanAfterIssue(bus: Bus, m: Machine, m': Machine, ops: seq<Descriptor>, bursts: seq<Burst>, b: Burst,
                       entries: seq<StatusEntry>)
    requires bus.Valid() && m.phase.Start? && m'.phase.Write? && PlanInv(bus, m, ops, bursts, entries)
    requires Unissued(bus, m) == [b] + Unissued(bus, m')
    ensures PlanInv(bus, m', ops, bursts + [b], entries)
  {
    var from := GroupStart(entries, |entries|);
    GroupsSurviveIssue(bus, ops, bursts, b, entries);
    assert bursts[from..] + ([b] + Unissued(bus, m')) == (bursts + [b])[from..] + Unissued(bus, m');
    assert PlanOf(bus, ops[|Finals(entries)|]) == bursts[from..] + Unissued(bus, m);
  }

  lemma StartPlan(bus: Bus, m: Machine, i: Input, ready: bool, available: bool, ops: seq<Descriptor>,
                  bursts: seq<Burst>, entries: seq<StatusEntry>)
    requires bus.Valid() && m.phase.Start? && 0 < m.opCount && m.addr + m.opCount <= bus.space
    requires PlanInv(bus, m, ops, bursts, entries)
    ensures var (m', fx) := NextStart(bus, m, i, ready, available);
            PlanInv(bus, m', ops, bursts + Optional(fx.issue), entries)
  {
    var (m', fx) := NextStart(bus, m, i, ready, available);
    TransferIsLegal(bus, m.addr, m.opCount);
    if fx.issue.Some? {
      UnissuedStep(bus, m, m', fx.issue.value.bytes);
      PlanAfterIssue(bus, m, m', ops, bursts, fx.issue.value, entries);
    } else {
      assert bursts + Optional(fx.issue) == bursts;
    }
  }

  lemma PlanAfterEntry(bus: Bus, m: Machine, m': Machine, ops: seq<Descriptor>,
                       bursts: seq<Burst>, entries: seq<StatusEntry>, e: StatusEntry)
    requires bus.Valid() && m.phase.Write? && PlanInv(bus, m, ops, bursts, entries)
    requires if e.last then !m'.phase.Start? && !m'.phase.Write?
             else m'.phase.Start? && m'.addr == m.addr && m'.opCount == m.opCount
    ensures PlanInv(bus, m', ops, bursts, entries + [e])
  {
    var n, entries' := |entries|, entries + [e];
    FinalsAppend(entries, e);
    GroupStartIgnoresLater(entries, e, n);
    assert entries'[..n] == entries;
    forall j | 0 <= j < |entries'| && entries'[j].last ensures GroupIsPlanned(bus, ops, bursts, entries', j) {
      GroupStartIgnoresLater(entries, e, j);
      if j < n {
        assert GroupIsPlanned(bus, ops, bursts, entries, j);
        assert entries'[..j] == entries[..j];
      } else {
        assert bursts[GroupStart(entries, n)..n + 1] == bursts[GroupStart(entries, n)..];
      }
    }
  }

  lemma WritePlan(bus: Bus, m: Machine, i: Input, ready: bool, available: bool, ops: seq<Descriptor>,
                  f: Frames, bursts: seq<Burst>, entries: seq<StatusEntry>)
    requires bus.Valid() && LegalInput(bus, i) && m.phase.Write?
    requires MachineInv(bus, m, ops, f) && PlanInv(bus, m, ops, bursts, entries)
    ensures var (m', fx) := NextWrite(bus, m, i, ready, available);
            PlanInv(bus, m', ops, bursts, entries + Optional(fx.status))
  {
    var (m', fx) := NextWrite(bus, m, i, ready, available);
    if m.tready && i.tvalid {
      WriteEffect(bus, m, i, ops[|f.complete|], ready, available);
    }
    if fx.status.Some? {
      PlanAfterEntry(bus, m, m', ops, bursts, entries, fx.status.value);
    } else {
      assert entries + Optional(fx.status) == entries;
    }
  }

  predicate Planning(m: Machine) { m.phase.Start? || m.phase.Write? }

  lemma QuietPlan(bus: Bus, m: Machine, m': Machine, ops: seq<Descriptor>, bursts: seq<Burst>,
                  entries: seq<StatusEntry>)
    requires bus.Valid() && !Planning(m) && !Planning(m') && PlanInv(bus, m, ops, bursts, entries)
    ensures PlanInv(bus, m', ops, bursts, entries)
  {
  }

  lemma PlanStep(bus: Bus, m: Machine, i: Input, ready: bool, available: bool, ops: seq<Descriptor>, f: Frames,
                 bursts: seq<Burst>, entries: seq<StatusEntry>)
    requires bus.Valid() && LegalInput(bus, i) && MachineInv(bus, m, ops, f)
    requires EntryInv(m, ops, f, bursts, entries) && PlanInv(bus, m, ops, bursts, entries)
    ensures var (m', fx) := NextMachine(bus, m, i, ready, available);
            PlanInv(bus, m', if m.descReady && i.descValid then ops + [i.desc] else ops,
                    bursts + Optional(fx.issue), entries + Optional(fx.status))
  {
    assert bursts + [] == bursts && entries + [] == entries;
    match m.phase
    case Idle =>
      if m.descReady && i.descValid {
        PlanAfterAccept(bus, m, NextIdle(bus, m, i, available), ops, i.desc, bursts, entries);
      } else {
        QuietPlan(bus, m, NextIdle(bus, m, i, available), ops, bursts, entries);
      }
    case Start => StartPlan(bus, m, i, ready, available, ops, bursts, entries);
    case Write =>
      WriteKeepsAddress(bus, m, i, ready, available);
      WritePlan(bus, m, i, ready, available, ops, f, bursts, entries);
    case FinishBurst => QuietPlan(bus, m, NextFinish(bus, m, i, ready, available).0, ops, bursts, entries);
    case DropData => QuietPlan(bus, m, NextDrop(m, i, available), ops, bursts, entries);
  }

  // ---------------------------------------------------------------------------------------------
  // The address channel and the status side
  // ---------------------------------------------------------------------------------------------

  /** The address registers hold the newest burst until the slave takes it. */
  ghost predicate AddressInv(bus: Bus, m: Machine, bursts: seq<Burst>, addressed: nat)
    requires 0 < bus.width
  {
    && |bursts| == addressed + (if m.awvalid then 1 else 0)
    && (m.awvalid ==>
          var b := bursts[addressed];
          m.awaddr == b.addr && 0 < b.bytes && m.awlen + 1 == bus.Beats(b.bytes))
  }

  lemma AddressStepStart(bus: Bus, m: Machine, i: Input, ready: bool, available: bool, bursts: seq<Burst>,
                         addressed: nat)
    requires bus.Valid() && m.phase.Start? && 0 < m.opCount && AddressInv(bus, m, bursts, addressed)
    ensures var (m', fx) := NextStart(bus, m, i, ready, available);
            AddressInv(bus, m', bursts + Optional(fx.issue),
                       if m.awvalid && i.awready then addressed + 1 else addressed)
  {
    TransferIsLegal(bus, m.addr, m.opCount);
    var fx := NextStart(bus, m, i, ready, available).1;
    if fx.issue.None? {
      assert bursts + Optional(fx.issue) == bursts;
    }
  }

  ghost predicate KeepsAddress(m: Machine, m': Machine, i: Input) {
    m'.awvalid == (m.awvalid && !i.awready) && m'.awaddr == m.awaddr && m'.awlen == m.awlen
  }

  lemma WriteKeepsAddress(bus: Bus, m: Machine, i: Input, ready: bool, available: bool)
    requires bus.Valid()
    ensures var (m', fx) := NextWrite(bus, m, i, ready, available); fx.issue.None? && KeepsAddress(m, m', i)
  {
  }

  lemma FinishKeepsAddress(bus: Bus, m: Machine, i: Input, ready: bool, available: bool)
    ensures var (m', fx) := NextFinish(bus, m, i, ready, available); fx.issue.None? && KeepsAddress(m, m', i)
  {
  }

  lemma OnlyStartIssues(bus: Bus, m: Machine, i: Input, ready: bool, available: bool)
    requires bus.Valid() && !m.phase.Start?
    ensures var (m', fx) := NextMachine(bus, m, i, ready, available); fx.issue.None? && KeepsAddress(m, m', i)
  {
    match m.phase
    case Idle =>
    case Write => WriteKeepsAddress(bus, m, i, ready, available);
    case FinishBurst => FinishKeepsAddress(bus, m, i, ready, available);
    case DropData =>
  }

  lemma AddressStep(bus: Bus, m: Machine, i: Input, ready: bool, available: bool, bursts: seq<Burst>, addressed: nat)
    requires bus.Valid() && (m.phase.Start? ==> 0 < m.opCount) && AddressInv(bus, m, bursts, addressed)
    ensures var (m', fx) := NextMachine(bus, m, i, ready, available);
            AddressInv(bus, m', bursts + Optional(fx.issue),
                       if m.awvalid && i.awready then addressed + 1 else addressed)
  {
    if m.phase.Start? {
      AddressStepStart(bus, m, i, ready, available, bursts, addressed);
    } else {
      OnlyStartIssues(bus, m, i, ready, available);
      var (m', fx) := NextMachine(bus, m, i, ready, available);
      assert bursts + Optional(fx.issue) == bursts;
    }
  }

  /** Responses folded over the entries they complete: finished reports, and the error so far. */
  function Account(entries: seq<StatusEntry>, resps: seq<Resp>): (r: (seq<Report>, Resp))
    requires |resps| <= |entries|
  {
    if resps == [] then ([], Okay)
    else
      var n := |resps| - 1;
      var (reports, seen) := Account(entries, resps[..n]);
      var now := if IsError(resps[n]) then resps[n] else seen;
      if entries[n].last then (reports + [Report(entries[n].len, entries[n].tag, WriteErrorOf(now))], Okay)
      else (reports, now)
  }

  lemma {:induction false} AccountIgnoresLater(entries: seq<StatusEntry>, more: seq<StatusEntry>, resps: seq<Resp>)
    requires |resps| <= |entries|
    ensures Account(entries + more, resps) == Account(entries, resps)
  {
    if resps != [] {
      AccountIgnoresLater(entries, more, resps[..|resps| - 1]);
    }
  }

  lemma AccountAppend(entries: seq<StatusEntry>, resps: seq<Resp>, r: Resp)
    requires |resps| < |entries|
    ensures var (reports, seen) := Account(entries, resps);
            var now := if IsError(r) then r else seen;
            var e := entries[|resps|];
            Account(entries, resps + [r]) ==
            if e.last then (reports + [Report(e.len, e.tag, WriteErrorOf(now))], Okay) else (reports, now)
  {
    assert (resps + [r])[..|resps|] == resps;
  }

  ghost predicate StatusInv(s: StatusSide, entries: seq<StatusEntry>, resps: seq<Resp>, reports: seq<Report>,
                            issued: nat) {
    && s.fifo.Represents(entries, |resps|)
    && (s.bready ==> |resps| < |entries|)
    && Account(entries, resps) == (reports, s.bresp)
    && |entries| <= issued
    && s.active == issued - |resps| <= DEPTH
    && (s.available <==> s.active < DEPTH)
  }

  lemma FifoStep(s: StatusSide, entries: seq<StatusEntry>, popped: nat, push: Option<StatusEntry>)
    requires s.fifo.Represents(entries, popped) && (push.Some? ==> !s.fifo.Full())
    ensures var stored := if push.Some? then s.fifo.Push(push.value) else s.fifo;
            && stored.Represents(entries + Optional(push), popped)
            && (!s.fifo.Empty() ==>
                  Ring(stored.slots, stored.wr, s.fifo.Pop().rd).Represents(entries + Optional(push), popped + 1))
  {
    var stored := if push.Some? then s.fifo.Push(push.value) else s.fifo;
    if push.Some? {
      RingPush(s.fifo, entries, popped, push.value);
    } else {
      assert entries + Optional(push) == entries;
    }
    if !s.fifo.Empty() {
      RingStatus(s.fifo, entries, popped);
      RingStatus(stored, entries + Optional(push), popped);
      RingPop(stored, entries + Optional(push), popped);
    }
  }

  lemma StatusStep(s: StatusSide, i: Input, push: Option<StatusEntry>, inc: bool,
                   entries: seq<StatusEntry>, resps: seq<Resp>, reports: seq<Report>, issued: nat)
    requires StatusInv(s, entries, resps, reports, issued)
    requires (push.Some? ==> |entries| < issued) && (inc ==> s.available)
    ensures var reports' :=
              if Completes(s, i) && s.fifo.Front().last then
                reports + [Report(s.fifo.Front().len, s.fifo.Front().tag, WriteErrorOf(NextResp(s, i)))]
              else reports;
            StatusInv(NextStatus(s, i, push, inc), entries + Optional(push),
                      if s.bready && i.bvalid then resps + [i.bresp] else resps, reports',
                      issued + if inc then 1 else 0)
    ensures push.Some? ==> !s.fifo.Full()
  {
    RingStatus(s.fifo, entries, |resps|);
    FifoStep(s, entries, |resps|, push);
    AccountIgnoresLater(entries, Optional(push), resps);
    if Completes(s, i) {
      AccountAppend(entries + Optional(push), resps, i.bresp);
    }
  }

  // ---------------------------------------------------------------------------------------------
  // The whole engine
  // ---------------------------------------------------------------------------------------------

  /** The address of the next data beat. */
  ghost function Cursor(bus: Bus, m: Machine, ops: seq<Descriptor>, f: Frames): nat
    requires bus.Valid() && |f.complete| <= |ops| && (Busy(m) ==> |f.complete| < |ops|)
  {
    if m.phase.Write? then Aligned(bus, ops[|f.complete|].addr) + m.length else 0
  }

  /** What the data path keeps: bursts, beats, memory and status entries agree with the frames consumed. */
  ghost predicate PathInv(bus: Bus, m: Machine, memory: seq<Byte>, ops: seq<Descriptor>, f: Frames,
                          bursts: seq<Burst>, pushed: seq<Beat>, entries: seq<StatusEntry>)
    requires bus.Valid()
  {
    && MachineInv(bus, m, ops, f)
    && BeatInv(bus, m, Cursor(bus, m, ops, f), bursts, pushed)
    && MemoryInv(bus, m, ops, f, memory, SlaveMemory(memory, SlaveAddresses(bus, bursts), pushed))
    && EntryInv(m, ops, f, bursts, entries)
  }

  lemma IdlePath(bus: Bus, m: Machine, i: Input, available: bool, memory: seq<Byte>, ops: seq<Descriptor>, f: Frames,
                 bursts: seq<Burst>, pushed: seq<Beat>, entries: seq<StatusEntry>)
    requires bus.Valid() && LegalInput(bus, i) && m.phase.Idle?
    requires PathInv(bus, m, memory, ops, f, bursts, pushed, entries)
    ensures PathInv(bus, NextIdle(bus, m, i, available), memory,
                    if m.descReady && i.descValid then ops + [i.desc] else ops, f, bursts, pushed, entries)
  {
    IdleMachine(bus, m, i, ops, f, available);
    if m.descReady && i.descValid {
      var m' := NextIdle(bus, m, i, available);
      MemoryAfterAccept(bus, m, m', ops, i.desc, f, memory, SlaveMemory(memory, SlaveAddresses(bus, bursts), pushed));
      EntriesAfterAccept(m, m', ops, i.desc, f, bursts, entries);
    }
  }

  lemma StartPath(bus: Bus, m: Machine, i: Input, ready: bool, available: bool, memory: seq<Byte>, ops: seq<Descriptor>,
                  f: Frames, bursts: seq<Burst>, pushed: seq<Beat>, entries: seq<StatusEntry>)
    requires bus.Valid() && LegalInput(bus, i) && m.phase.Start?
    requires PathInv(bus, m, memory, ops, f, bursts, pushed, entries)
    ensures var (m', fx) := NextStart(bus, m, i, ready, available);
            && fx.push.None? && fx.status.None?
            && PathInv(bus, m', memory, ops, f, bursts + Optional(fx.issue), pushed, entries)
  {
    var (m', fx) := NextStart(bus, m, i, ready, available);
    StartMachine(bus, m, i, ops, f, ready, available);
    TransferIsLegal(bus, m.addr, m.opCount);
    if fx.issue.Some? {
      var b := fx.issue.value;
      BeatsAfterIssue(bus, m, m', Cursor(bus, m, ops, f), bursts, pushed, b);
      SlaveAddressesConcat(bus, bursts, [b]);
      SlaveMemoryIgnoresLater(memory, SlaveAddresses(bus, bursts), SlaveAddresses(bus, [b]), pushed);
    } else {
      assert bursts + Optional(fx.issue) == bursts;
    }
  }

  /** Where a beat of the write state goes, and what is owed after it. */
  lemma BeatsAfterWrite(bus: Bus, m: Machine, m': Machine, at: nat, at': nat, bursts: seq<Burst>, pushed: seq<Beat>,
                        b: Beat)
    requires 0 < bus.width && m.phase.Write? && 0 < Owed(m) && BeatInv(bus, m, at, bursts, pushed)
    requires b.last == (m.outCount == 0) && Owed(m') == m.outCount && (m'.phase.Write? ==> at' == at + bus.width)
    ensures BeatInv(bus, m', at', bursts, pushed + [b])
    ensures |pushed| < |SlaveAddresses(bus, bursts)| && SlaveAddresses(bus, bursts)[|pushed|] == at
  {
    BeatsAfterPush(bus, m, m', at, bursts, pushed, b);
  }

  /** What a beat of the write state does to memory. */
  lemma MemoryAfterWrite(bus: Bus, m: Machine, m': Machine, i: Input, ops: seq<Descriptor>, f: Frames,
                         memory: seq<Byte>, addrs: seq<nat>, pushed: seq<Beat>, b: Beat)
    requires bus.Valid() && Busy(m) && |f.complete| < |ops| && m.tready && i.tvalid && LegalInput(bus, i)
    requires |pushed| < |addrs| && Busy(m') == !i.beat.last
    requires MemoryInv(bus, m, ops, f, memory, SlaveMemory(memory, addrs, pushed))
    requires var op := ops[|f.complete|];
             && |f.open| == m.length < op.len && addrs[|pushed|] == Aligned(bus, op.addr) + m.length
             && b == Beat(i.beat.data, Mask(bus.width, Share(m, i, op)), b.last)
    ensures MemoryInv(bus, m', ops, Consume(m, i, f), memory, SlaveMemory(memory, addrs, pushed + [b]))
  {
    var op, base := ops[|f.complete|], Store(bus, memory, ops, f.complete);
    var now := SlaveMemory(memory, addrs, pushed);
    SlaveMemoryAppend(memory, addrs, pushed, b);
    WriteIgnoresLast(now, addrs[|pushed|], b, i.beat.last);
    StoreShare(base, Aligned(bus, op.addr), op, f.open, bus.width, i.beat, Share(m, i, op));
    MemoryAfterBeat(bus, m, m', i, ops, f, memory, now, SlaveMemory(memory, addrs, pushed + [b]));
  }

  lemma WriteIgnoresLast(memory: seq<Byte>, addr: int, b: Beat, last: bool)
    requires |b.data| == |b.keep|
    ensures WriteLanes(memory, addr, b) == WriteLanes(memory, addr, b.(last := last))
  {
  }

  /** The registers after a beat of the write state that the proof looks at. */
  lemma WriteNext(bus: Bus, m: Machine, i: Input, op: Descriptor, ready: bool, available: bool)
    requires bus.Valid() && LegalInput(bus, i) && WriteInv(bus, m, op) && m.lastOffset == op.len % bus.width
    requires m.phase.Write? && m.tready && i.tvalid
    ensures var m' := NextWrite(bus, m, i, ready, available).0;
            && Owed(m') == m.outCount && Busy(m') == !i.beat.last
            && (m'.phase.Write? ==> m'.length == m.length + bus.width && !i.beat.last)
  {
    LastBeatOfBurst(bus, m, op);
  }

  lemma WritePath(bus: Bus, m: Machine, i: Input, ready: bool, available: bool, memory: seq<Byte>, ops: seq<Descriptor>,
                  f: Frames, bursts: seq<Burst>, pushed: seq<Beat>, entries: seq<StatusEntry>)
    requires bus.Valid() && LegalInput(bus, i) && m.phase.Write? && m.tready && i.tvalid
    requires PathInv(bus, m, memory, ops, f, bursts, pushed, entries)
    ensures var (m', fx) := NextWrite(bus, m, i, ready, available);
            && fx.issue.None?
            && PathInv(bus, m', memory, ops, Consume(m, i, f), bursts, pushed + Optional(fx.push),
                       entries + Optional(fx.status))
  {
    var (m', fx) := NextWrite(bus, m, i, ready, available);
    var op := ops[|f.complete|];
    WriteMachine(bus, m, i, ops, f, ready, available);
    WriteEffect(bus, m, i, op, ready, available);
    WriteNext(bus, m, i, op, ready, available);
    EntriesAfterWrite(bus, m, i, ops, f, ready, available, bursts, entries);
    var at' := Cursor(bus, m', ops, Consume(m, i, f));
    BeatsAfterWrite(bus, m, m', Cursor(bus, m, ops, f), at', bursts, pushed, fx.push.value);
    MemoryAfterWrite(bus, m, m', i, ops, f, memory, SlaveAddresses(bus, bursts), pushed, fx.push.value);
  }

  lemma FinishPath(bus: Bus, m: Machine, i: Input, ready: bool, available: bool, memory: seq<Byte>,
                   ops: seq<Descriptor>, f: Frames, bursts: seq<Burst>, pushed: seq<Beat>, entries: seq<StatusEntry>)
    requires bus.Valid() && LegalInput(bus, i) && m.phase.FinishBurst?
    requires PathInv(bus, m, memory, ops, f, bursts, pushed, entries)
    ensures var (m', fx) := NextFinish(bus, m, i, ready, available);
            && fx.issue.None? && fx.status.None?
            && PathInv(bus, m', memory, ops, f, bursts, pushed + Optional(fx.push), entries)
  {
    var (m', fx) := NextFinish(bus, m, i, ready, available);
    var addrs := SlaveAddresses(bus, bursts);
    FinishMachine(bus, m, i, ops, f, ready, available);
    if fx.push.Some? {
      BeatsAfterPush(bus, m, m', Cursor(bus, m, ops, f), bursts, pushed, fx.push.value);
      SlaveMemoryAppend(memory, addrs, pushed, fx.push.value);
      PaddingStoresNothing(bus.width, SlaveMemory(memory, addrs, pushed), addrs[|pushed|], m.outputLast);
    } else {
      assert pushed + Optional(fx.push) == pushed;
    }
  }

  lemma DropPath(bus: Bus, m: Machine, i: Input, available: bool, memory: seq<Byte>, ops: seq<Descriptor>,
                 f: Frames, bursts: seq<Burst>, pushed: seq<Beat>, entries: seq<StatusEntry>)
    requires bus.Valid() && LegalInput(bus, i) && m.phase.DropData? && i.tvalid
    requires PathInv(bus, m, memory, ops, f, bursts, pushed, entries)
    ensures PathInv(bus, NextDrop(m, i, available), memory, ops, Consume(m, i, f), bursts, pushed, entries)
  {
    var m' := NextDrop(m, i, available);
    var op := ops[|f.complete|];
    var now := SlaveMemory(memory, SlaveAddresses(bus, bursts), pushed);
    DropMachine(bus, m, i, ops, f, available);
    StoredIsSettled(op, f.open, Kept(i.beat));
    MemoryAfterBeat(bus, m, m', i, ops, f, memory, now, now);
    EntriesAfterDrop(m, m', i, ops, f, bursts, entries);
  }

  /** Beats are accepted for storage, on a registered copy of the output stage's ready. */
  predicate Gate(m: Machine) { m.phase.Write? && m.tready }

  ghost predicate Inv(bus: Bus, e: Engine, h: History, memory: seq<Byte>)
    requires bus.Valid()
  {
    && PathInv(bus, e.m, memory, h.ops, Split(h.consumed), h.bursts, h.pushed, h.entries)
    && PlanInv(bus, e.m, h.ops, h.bursts, h.entries)
    && AddressInv(bus, e.m, h.bursts, h.addressed)
    && StatusInv(e.s, h.entries, h.resps, h.reports, |h.bursts|)
    && e.out.Represents(h.pushed, h.delivered)
    && e.out.Throttled(Gate(e.m))
  }

  lemma InvInit(bus: Bus, e: Engine, memory: seq<Byte>)
    requires bus.Valid() && Reset(e)
    ensures Inv(bus, e, EMPTY, memory)
  {
  }

  /** The machine's step, in whatever state it is. */
  lemma PathStep(bus: Bus, m: Machine, i: Input, ready: bool, available: bool, memory: seq<Byte>, ops: seq<Descriptor>,
                 consumed: seq<Beat>, bursts: seq<Burst>, pushed: seq<Beat>, entries: seq<StatusEntry>)
    requires bus.Valid() && LegalInput(bus, i)
    requires PathInv(bus, m, memory, ops, Split(consumed), bursts, pushed, entries)
    ensures var (m', fx) := NextMachine(bus, m, i, ready, available);
            PathInv(bus, m', memory,
                    if m.descReady && i.descValid then ops + [i.desc] else ops,
                    Split(if m.tready && i.tvalid then consumed + [i.beat] else consumed),
                    bursts + Optional(fx.issue), pushed + Optional(fx.push), entries + Optional(fx.status))
  {
    var f := Split(consumed);
    SplitAppend(consumed, i.beat);
    assert bursts + [] == bursts && pushed + [] == pushed && entries + [] == entries;
    match m.phase
    case Idle => IdlePath(bus, m, i, available, memory, ops, f, bursts, pushed, entries);
    case Start => StartPath(bus, m, i, ready, available, memory, ops, f, bursts, pushed, entries);
    case Write =>
      if m.tready && i.tvalid {
        WritePath(bus, m, i, ready, available, memory, ops, f, bursts, pushed, entries);
      } else {
        WriteWaits(bus, m, i, ready, available, memory, ops, f, bursts, pushed, entries);
      }
    case FinishBurst => FinishPath(bus, m, i, ready, available, memory, ops, f, bursts, pushed, entries);
    case DropData =>
      if i.tvalid {
        DropPath(bus, m, i, available, memory, ops, f, bursts, pushed, entries);
      }
  }

  lemma WriteWaits(bus: Bus, m: Machine, i: Input, ready: bool, available: bool, memory: seq<Byte>,
                   ops: seq<Descriptor>, f: Frames, bursts: seq<Burst>, pushed: seq<Beat>, entries: seq<StatusEntry>)
    requires bus.Valid() && LegalInput(bus, i) && m.phase.Write? && !(m.tready && i.tvalid)
    requires PathInv(bus, m, memory, ops, f, bursts, pushed, entries)
    ensures var (m', fx) := NextWrite(bus, m, i, ready, available);
            fx == NOTHING && PathInv(bus, m', memory, ops, f, bursts, pushed, entries)
  {
    WriteMachine(bus, m, i, ops, f, ready, available);
  }

  /** Beats are pushed and tready is raised only when the output stage said ready. */
  lemma PushesAreGated(bus: Bus, m: Machine, i: Input, ready: bool, available: bool, ops: seq<Descriptor>, f: Frames)
    requires bus.Valid() && LegalInput(bus, i) && MachineInv(bus, m, ops, f)
    ensures var (m', fx) := NextMachine(bus, m, i, ready, available);
            && (fx.push.Some? ==> Gate(m) || ready)
            && (Gate(m') ==> ready)
            && (fx.status.Some? ==> m.phase.Write?)
            && (fx.issue.Some? ==> available)
  {
    match m.phase
    case Idle =>
    case Start =>
    case Write => WriteIsGated(bus, m, i, ready, available, ops[|f.complete|]);
    case FinishBurst =>
    case DropData =>
  }

  lemma WriteIsGated(bus: Bus, m: Machine, i: Input, ready: bool, available: bool, op: Descriptor)
    requires bus.Valid() && m.phase.Write? && WriteInv(bus, m, op)
    ensures var (m', fx) := NextWrite(bus, m, i, ready, available);
            && (fx.push.Some? ==> m.tready)
            && (Gate(m') ==> ready)
            && fx.issue.None?
  {
  }

  lemma StepPath(bus: Bus, e: Engine, i: Input, h: History, memory: seq<Byte>)
    requires bus.Valid() && LegalInput(bus, i) && e.out.ring.Valid() && e.s.fifo.Valid()
    requires PathInv(bus, e.m, memory, h.ops, Split(h.consumed), h.bursts, h.pushed, h.entries)
    requires AddressInv(bus, e.m, h.bursts, h.addressed)
    ensures var e', h' := Next(bus, e, i), Record(bus, e, i, h);
            && PathInv(bus, e'.m, memory, h'.ops, Split(h'.consumed), h'.bursts, h'.pushed, h'.entries)
            && AddressInv(bus, e'.m, h'.bursts, h'.addressed)
  {
    PathStep(bus, e.m, i, !e.out.halfFull, e.s.available, memory, h.ops, h.consumed, h.bursts, h.pushed, h.entries);
    AddressStep(bus, e.m, i, !e.out.halfFull, e.s.available, h.bursts, h.addressed);
  }

  lemma StepPlan(bus: Bus, e: Engine, i: Input, h: History)
    requires bus.Valid() && LegalInput(bus, i) && e.out.ring.Valid() && e.s.fifo.Valid()
    requires MachineInv(bus, e.m, h.ops, Split(h.consumed))
    requires EntryInv(e.m, h.ops, Split(h.consumed), h.bursts, h.entries)
    requires PlanInv(bus, e.m, h.ops, h.bursts, h.entries)
    ensures var e', h' := Next(bus, e, i), Record(bus, e, i, h);
            PlanInv(bus, e'.m, h'.ops, h'.bursts, h'.entries)
  {
    PlanStep(bus, e.m, i, !e.out.halfFull, e.s.available, h.ops, Split(h.consumed), h.bursts, h.entries);
  }

  lemma StepStatus(bus: Bus, e: Engine, i: Input, h: History)
    requires bus.Valid() && e.out.ring.Valid() && (e.m.phase.Start? ==> 0 < e.m.opCount)
    requires StatusInv(e.s, h.entries, h.resps, h.reports, |h.bursts|)
    requires var fx := Step(bus, e, i).1;
             (fx.status.Some? ==> |h.entries| < |h.bursts|) && (fx.issue.Some? ==> e.s.available)
    ensures var e', h' := Next(bus, e, i), Record(bus, e, i, h);
            StatusInv(e'.s, h'.entries, h'.resps, h'.reports, |h'.bursts|)
    ensures Step(bus, e, i).1.status.Some? ==> !e.s.fifo.Full()
  {
    var fx := Step(bus, e, i).1;
    StatusStep(e.s, i, fx.status, fx.issue.Some?, h.entries, h.resps, h.reports, |h.bursts|);
  }

  lemma StepStage(bus: Bus, e: Engine, i: Input, h: History)
    requires bus.Valid() && e.s.fifo.Valid() && (e.m.phase.Start? ==> 0 < e.m.opCount)
    requires e.out.Represents(h.pushed, h.delivered) && e.out.Throttled(Gate(e.m))
    requires var (m', fx) := Step(bus, e, i);
             && (fx.push.Some? ==> Gate(e.m) || !e.out.halfFull)
             && (Gate(m') ==> !e.out.halfFull)
    ensures var e', h' := Next(bus, e, i), Record(bus, e, i, h);
            e'.out.Represents(h'.pushed, h'.delivered) && e'.out.Throttled(Gate(e'.m))
    ensures Step(bus, e, i).1.push.Some? ==> !e.out.ring.Full()
  {
    var (m', fx) := Step(bus, e, i);
    StageStaysThrottled(e.out, h.pushed, h.delivered, fx.push, i.wready, Gate(e.m), Gate(m'));
    StageKeepsOrder(e.out, h.pushed, h.delivered, fx.push, i.wready);
  }

  /** One clock edge keeps the invariant, whatever the environment does; neither FIFO ever overflows. */
  lemma InvStep(bus: Bus, e: Engine, i: Input, h: History, memory: seq<Byte>)
    requires bus.Valid() && LegalInput(bus, i) && Inv(bus, e, h, memory)
    ensures Inv(bus, Next(bus, e, i), Record(bus, e, i, h), memory)
    ensures var fx := Step(bus, e, i).1;
            (fx.push.Some? ==> !e.out.ring.Full()) && (fx.status.Some? ==> !e.s.fifo.Full())
  {
    PushesAreGated(bus, e.m, i, !e.out.halfFull, e.s.available, h.ops, Split(h.consumed));
    StepPath(bus, e, i, h, memory);
    StepPlan(bus, e, i, h);
    StepStatus(bus, e, i, h);
    StepStage(bus, e, i, h);
  }

  // ---------------------------------------------------------------------------------------------
  // Runs
  // ---------------------------------------------------------------------------------------------

  ghost predicate LegalRun(bus: Bus, inputs: seq<Input>)
    requires bus.Valid()
  {
    forall k :: 0 <= k < |inputs| ==> LegalInput(bus, inputs[k])
  }

  /** What a step needs to be defined. */
  ghost predicate Sound(e: Engine) {
    e.out.ring.Valid() && e.s.fifo.Valid() && (e.m.phase.Start? ==> 0 < e.m.opCount)
  }

  lemma StartSound(bus: Bus, m: Machine, i: Input, ready: bool, available: bool)
    requires bus.Valid() && m.phase.Start? && 0 < m.opCount
    ensures var m' := NextStart(bus, m, i, ready, available).0; m'.phase.Start? ==> 0 < m'.opCount
  {
  }

  /** The write state returns to the start state only with bytes left. */
  lemma WriteSound(bus: Bus, m: Machine, i: Input, ready: bool, available: bool)
    requires bus.Valid() && m.phase.Write?
    ensures var m' := NextWrite(bus, m, i, ready, available).0; m'.phase.Start? ==> 0 < m'.opCount
  {
  }

  lemma MachineSound(bus: Bus, m: Machine, i: Input, ready: bool, available: bool)
    requires bus.Valid() && LegalInput(bus, i) && (m.phase.Start? ==> 0 < m.opCount)
    ensures var m' := NextMachine(bus, m, i, ready, available).0; m'.phase.Start? ==> 0 < m'.opCount
  {
    if m.phase.Write? {
      WriteSound(bus, m, i, ready, available);
    } else if m.phase.Start? {
      StartSound(bus, m, i, ready, available);
    }
  }

  lemma StatusSound(s: StatusSide, i: Input, push: Option<StatusEntry>, inc: bool)
    requires s.fifo.Valid()
    ensures NextStatus(s, i, push, inc).fifo.Valid()
  {
  }

  lemma StageSound<T>(s: Stage<T>, push: Option<T>, ready: bool)
    requires s.ring.Valid()
    ensures s.Next(push, ready).ring.Valid()
  {
  }

  lemma SoundStep(bus: Bus, e: Engine, i: Input)
    requires bus.Valid() && Sound(e) && LegalInput(bus, i)
    ensures Sound(Next(bus, e, i))
  {
    var fx := Step(bus, e, i).1;
    MachineSound(bus, e.m, i, !e.out.halfFull, e.s.available);
    StatusSound(e.s, i, fx.status, fx.issue.Some?);
    StageSound(e.out, fx.push, i.wready);
  }

  /** The engine after the given cycles, with the history of its interfaces. */
  ghost function Run(bus: Bus, start: Engine, inputs: seq<Input>): (r: (Engine, History))
    requires bus.Valid() && Reset(start) && LegalRun(bus, inputs)
    ensures Sound(r.0)
  {
    if inputs == [] then (start, EMPTY)
    else
      var (e, h) := Run(bus, start, inputs[..|inputs| - 1]);
      var i := inputs[|inputs| - 1];
      SoundStep(bus, e, i);
      (Next(bus, e, i), Record(bus, e, i, h))
  }

  lemma {:induction false} RunKeepsInv(bus: Bus, start: Engine, inputs: seq<Input>, memory: seq<Byte>)
    requires bus.Valid() && Reset(start) && LegalRun(bus, inputs)
    ensures Inv(bus, Run(bus, start, inputs).0, Run(bus, start, inputs).1, memory)
  {
    if inputs == [] {
      InvInit(bus, start, memory);
    } else {
      var n := |inputs| - 1;
      RunKeepsInv(bus, start, inputs[..n], memory);
      var (e, h) := Run(bus, start, inputs[..n]);
      InvStep(bus, e, inputs[n], h, memory);
    }
  }

  /** The memory as a slave has it that stored the beats delivered so far. */
  function Landed(bus: Bus, h: History, memory: seq<Byte>): (m: seq<Byte>)
    requires 0 < bus.width && (forall b <- h.bursts :: 0 < b.bytes)
    requires h.delivered <= |h.pushed| <= |SlaveAddresses(bus, h.bursts)|
    ensures |m| == |memory|
  {
    SlaveMemory(memory, SlaveAddresses(bus, h.bursts), h.pushed[..h.delivered])
  }

  /**
   What the engine is for. Each frame consumed belongs to one descriptor, and when the engine is idle and
   its beats have been taken, memory is the initial one with the first min(length, descriptor) bytes of
   each frame stored at its descriptor's address, and nothing else touched.
   */
  ghost predicate Stores(bus: Bus, idle: bool, h: History, memory: seq<Byte>)
    requires bus.Valid()
  {
    var frames := Split(h.consumed).complete;
    && |frames| <= |h.ops| <= |frames| + 1
    && h.delivered <= |h.pushed| && h.addressed <= |h.bursts|
    && (forall b <- h.bursts :: 0 < b.bytes)
    && |h.pushed| <= |SlaveAddresses(bus, h.bursts)|
    && (idle ==>
          && |h.ops| == |frames| && Split(h.consumed).open == []
          && |h.pushed| == |SlaveAddresses(bus, h.bursts)|
          && (h.delivered == |h.pushed| ==> Landed(bus, h, memory) == Store(bus, memory, h.ops, frames)))
  }

  lemma InvStores(bus: Bus, e: Engine, h: History, memory: seq<Byte>)
    requires bus.Valid() && Inv(bus, e, h, memory)
    ensures Stores(bus, e.m.phase.Idle?, h, memory)
  {
    assert h.pushed[..|h.pushed|] == h.pushed;
  }

  /** Functional correctness over any run, whatever the handshakes do. */
  lemma WriteIsCorrect(bus: Bus, start: Engine, inputs: seq<Input>, memory: seq<Byte>)
    requires bus.Valid() && Reset(start) && LegalRun(bus, inputs)
    ensures var (e, h) := Run(bus, start, inputs);
            Stores(bus, e.m.phase.Idle?, h, memory)
  {
    var (e, h) := Run(bus, start, inputs);
    RunKeepsInv(bus, start, inputs, memory);
    InvStores(bus, e, h, memory);
  }

  /** A place no descriptor names. */
  ghost predicate Outside(bus: Bus, ops: seq<Descriptor>, x: nat)
    requires bus.Valid()
  {
    forall j :: 0 <= j < |ops| ==> x < Aligned(bus, ops[j].addr) || Aligned(bus, ops[j].addr) + ops[j].len <= x
  }

  lemma {:induction false} StoreIsInside(bus: Bus, memory: seq<Byte>, ops: seq<Descriptor>, frames: seq<seq<Byte>>,
                                         x: nat)
    requires bus.Valid() && |frames| <= |ops| && Outside(bus, ops, x) && x < |memory|
    ensures Store(bus, memory, ops, frames)[x] == memory[x]
  {
    if frames != [] {
      StoreIsInside(bus, memory, ops, frames[..|frames| - 1], x);
    }
  }

  lemma PushedIsInside(bus: Bus, m: Machine, memory: seq<Byte>, ops: seq<Descriptor>, f: Frames, now: seq<Byte>, x: nat)
    requires bus.Valid() && |f.complete| <= |ops| && (Busy(m) ==> |f.complete| < |ops|)
    requires MemoryInv(bus, m, ops, f, memory, now) && Outside(bus, ops, x) && x < |memory|
    ensures |now| == |memory| && now[x] == memory[x]
  {
    StoreIsInside(bus, memory, ops, f.complete, x);
  }

  /** `h` continues `h0`, which had pushed `k` beats. */
  ghost predicate Continues(h0: History, h: History, k: nat) {
    && k <= |h.pushed| && h0.pushed == h.pushed[..k]
    && h0.ops <= h.ops && h0.bursts <= h.bursts
  }

  lemma ContinuesItself(h: History)
    ensures Continues(h, h, |h.pushed|)
  {
    assert h.pushed[..|h.pushed|] == h.pushed;
  }

  lemma ContinuesStep(bus: Bus, e: Engine, i: Input, h0: History, h: History, k: nat)
    requires bus.Valid() && (e.m.phase.Start? ==> 0 < e.m.opCount) && e.s.fifo.Valid()
    requires k <= |h.pushed| ==> Continues(h0, h, k)
    requires k < |Record(bus, e, i, h).pushed|
    ensures Continues(h0, Record(bus, e, i, h), k)
  {
    var h' := Record(bus, e, i, h);
    assert h.pushed <= h'.pushed && |h'.pushed| <= |h.pushed| + 1;
    assert h'.pushed[..k] == h.pushed[..k];
    assert h.ops <= h'.ops && h.bursts <= h'.bursts;
  }

  lemma EarlierMemory(bus: Bus, bursts: seq<Burst>, bursts': seq<Burst>, memory: seq<Byte>, beats: seq<Beat>)
    requires bus.Valid() && bursts <= bursts' && (forall b <- bursts' :: 0 < b.bytes)
    requires |beats| <= |SlaveAddresses(bus, bursts)|
    ensures |beats| <= |SlaveAddresses(bus, bursts')|
    ensures SlaveMemory(memory, SlaveAddresses(bus, bursts'), beats)
            == SlaveMemory(memory, SlaveAddresses(bus, bursts), beats)
  {
    var more := bursts'[|bursts|..];
    assert bursts' == bursts + more;
    SlaveAddressesConcat(bus, bursts, more);
    SlaveMemoryIgnoresLater(memory, SlaveAddresses(bus, bursts), SlaveAddresses(bus, more), beats);
  }

  lemma OutsideEarlier(bus: Bus, ops: seq<Descriptor>, ops': seq<Descriptor>, x: nat)
    requires bus.Valid() && ops <= ops' && Outside(bus, ops', x)
    ensures Outside(bus, ops, x)
  {
    assert forall j :: 0 <= j < |ops| ==> ops[j] == ops'[j];
  }

  /** Some earlier state of the run had pushed exactly the first `k` beats. */
  lemma {:induction false} EarlierState(bus: Bus, start: Engine, inputs: seq<Input>, k: nat)
    returns (earlier: seq<Input>)
    requires bus.Valid() && Reset(start) && LegalRun(bus, inputs)
    requires k <= |Run(bus, start, inputs).1.pushed|
    ensures LegalRun(bus, earlier)
    ensures Continues(Run(bus, start, earlier).1, Run(bus, start, inputs).1, k)
  {
    if k == |Run(bus, start, inputs).1.pushed| {
      earlier := inputs;
      ContinuesItself(Run(bus, start, inputs).1);
    } else {
      var before, i := inputs[..|inputs| - 1], inputs[|inputs| - 1];
      var (e, h) := Run(bus, start, before);
      if k <= |h.pushed| {
        earlier := EarlierState(bus, start, before, k);
      } else {
        earlier := before;
      }
      ContinuesStep(bus, e, i, Run(bus, start, earlier).1, h, k);
    }
  }

  /** At any time, however many beats have arrived, no byte outside the descriptors' ranges has changed. */
  lemma OnlyDescriptorsAreTouched(bus: Bus, start: Engine, inputs: seq<Input>, memory: seq<Byte>, k: nat, x: nat)
    requires bus.Valid() && Reset(start) && LegalRun(bus, inputs) && x < |memory|
    requires var h := Run(bus, start, inputs).1; k <= |h.pushed| && Outside(bus, h.ops, x)
    ensures var h := Run(bus, start, inputs).1;
            && (forall b <- h.bursts :: 0 < b.bytes) && |h.pushed| <= |SlaveAddresses(bus, h.bursts)|
            && SlaveMemory(memory, SlaveAddresses(bus, h.bursts), h.pushed[..k])[x] == memory[x]
  {
    var h := Run(bus, start, inputs).1;
    var earlier := EarlierState(bus, start, inputs, k);
    var (e0, h0) := Run(bus, start, earlier);
    RunKeepsInv(bus, start, inputs, memory);
    RunKeepsInv(bus, start, earlier, memory);
    OutsideEarlier(bus, h0.ops, h.ops, x);
    var now := SlaveMemory(memory, SlaveAddresses(bus, h0.bursts), h0.pushed);
    PushedIsInside(bus, e0.m, memory, h0.ops, Split(h0.consumed), now, x);
    EarlierMemory(bus, h0.bursts, h.bursts, memory, h0.pushed);
  }

  /** wlast is on the last beat of each burst and nowhere else, at any time. */
  lemma LastIsOnBurstEnds(bus: Bus, start: Engine, inputs: seq<Input>)
    requires bus.Valid() && Reset(start) && LegalRun(bus, inputs)
    ensures var h := Run(bus, start, inputs).1;
            && (forall b <- h.bursts :: 0 < b.bytes)
            && LastOf(h.pushed) <= LastFlags(bus, h.bursts)
  {
    RunKeepsInv(bus, start, inputs, []);
  }

  /** Outstanding bursts are the status entries not yet completed, plus the burst in STATE_WRITE; never more than 32. */
  lemma OutstandingBursts(bus: Bus, start: Engine, inputs: seq<Input>)
    requires bus.Valid() && Reset(start) && LegalRun(bus, inputs)
    ensures var (e, h) := Run(bus, start, inputs);
            && e.s.active == e.s.fifo.Occupancy() + (if e.m.phase.Write? then 1 else 0)
            && e.s.active == |h.bursts| - |h.resps| <= DEPTH
  {
    var (e, h) := Run(bus, start, inputs);
    RunKeepsInv(bus, start, inputs, []);
    RingStatus(e.s.fifo, h.entries, |h.resps|);
  }

  // ---------------------------------------------------------------------------------------------
  // Reports
  // ---------------------------------------------------------------------------------------------

  lemma {:induction false} AccountSeen(entries: seq<StatusEntry>, resps: seq<Resp>)
    requires |resps| <= |entries|
    ensures IsError(Account(entries, resps).1) <==>
            exists k :: GroupStart(entries, |resps|) <= k < |resps| && IsError(resps[k])
  {
    if resps != [] {
      var n := |resps| - 1;
      AccountSeen(entries, resps[..n]);
      if !entries[n].last {
        var from := GroupStart(entries, n);
        assert GroupStart(entries, |resps|) == from;
        if k :| from <= k < n && IsError(resps[..n][k]) {
          assert IsError(resps[k]);
        }
        if k :| from <= k < |resps| && IsError(resps[k]) && k != n {
          assert IsError(resps[..n][k]);
        }
      }
    }
  }

  /** The position of a report among the final entries. */
  lemma {:induction false} AccountCount(entries: seq<StatusEntry>, resps: seq<Resp>)
    requires |resps| <= |entries|
    ensures |Account(entries, resps).0| == |Finals(entries[..|resps|])|
  {
    if resps != [] {
      var n := |resps| - 1;
      AccountCount(entries, resps[..n]);
      assert entries[..n + 1][..n] == entries[..n];
    }
  }

  /** The report for the final entry `n`. */
  lemma {:induction false} ReportFor(entries: seq<StatusEntry>, resps: seq<Resp>, n: nat)
    requires n < |resps| <= |entries| && entries[n].last
    ensures var k := |Finals(entries[..n])|;
            && k < |Account(entries, resps).0|
            && var r := Account(entries, resps).0[k];
               && r.len == entries[n].len && r.tag == entries[n].tag
               && (r.error.NoError? <==> forall j :: GroupStart(entries, n) <= j <= n ==> !IsError(resps[j]))
  {
    var m := |resps| - 1;
    AccountCount(entries, resps[..m]);
    if n < m {
      ReportFor(entries, resps[..m], n);
      forall j | 0 <= j < m ensures resps[..m][j] == resps[j] {}
    } else {
      AccountSeen(entries, resps[..m]);
      assert entries[..|resps[..m]|] == entries[..n];
      forall j | 0 <= j < m ensures resps[..m][j] == resps[j] {}
    }
  }

  lemma {:induction false} FinalsPrefix(entries: seq<StatusEntry>, n: nat)
    requires n <= |entries|
    ensures Finals(entries[..n]) <= Finals(entries)
  {
    if n == |entries| {
      assert entries[..n] == entries;
    } else {
      assert entries[..|entries| - 1][..n] == entries[..n];
      FinalsPrefix(entries[..|entries| - 1], n);
    }
  }

  /** Every final entry whose burst has been answered is reported, in order. */
  ghost predicate ReportsEntry(h: History, j: nat, n: nat)
    requires |h.resps| <= |h.entries|
  {
    && n < |h.resps| && h.entries[n].last && |Finals(h.entries[..n])| == j
    && j < |h.reports|
    && (h.reports[j].error.NoError? <==> forall k :: GroupStart(h.entries, n) <= k <= n ==> !IsError(h.resps[k]))
  }

  lemma {:induction false} EntryOfReport(h: History, n: nat, j: nat)
    requires n <= |h.resps| <= |h.entries| && h.reports == Account(h.entries, h.resps).0
    requires j < |Finals(h.entries[..n])|
    ensures exists k :: ReportsEntry(h, j, k)
  {
    var e := h.entries[n - 1];
    assert h.entries[..n][..n - 1] == h.entries[..n - 1];
    if j < |Finals(h.entries[..n - 1])| {
      EntryOfReport(h, n - 1, j);
    } else {
      ReportFor(h.entries, h.resps, n - 1);
      assert ReportsEntry(h, j, n - 1);
    }
  }

  lemma ReportIsFinal(h: History, j: nat, n: nat)
    requires |h.resps| <= |h.entries| && h.reports == Account(h.entries, h.resps).0
    requires ReportsEntry(h, j, n)
    ensures j < |Finals(h.entries)| && Finals(h.entries)[j] == (h.reports[j].len, h.reports[j].tag)
  {
    ReportFor(h.entries, h.resps, n);
    FinalsPrefix(h.entries, n + 1);
    assert h.entries[..n + 1][..n] == h.entries[..n];
  }

  lemma FinalOf(m: Machine, ops: seq<Descriptor>, f: Frames, bursts: seq<Burst>, entries: seq<StatusEntry>, j: nat)
    requires |f.complete| <= |ops| && (Busy(m) ==> |f.complete| < |ops|) && EntryInv(m, ops, f, bursts, entries)
    requires j < |Finals(entries)|
    ensures j < |ops|
    ensures Finals(entries)[j].1 == ops[j].tag
    ensures Finals(entries)[j].0 == if j < |f.complete| then Min(|f.complete[j]|, ops[j].len) else ops[j].len
  {
    if j < |f.complete| {
      assert Finals(entries)[j] == Results(ops, f.complete)[j];
    }
  }

  /**
   Reports over any run: the j-th one carries the j-th descriptor's tag and the number of bytes of
   its frame that were stored, and says NoError exactly when no burst of that descriptor failed;
   those bursts are the first ones of the descriptor's plan.
   */
  lemma WriteReports(bus: Bus, start: Engine, inputs: seq<Input>, h: History, j: nat)
    requires bus.Valid() && Reset(start) && LegalRun(bus, inputs) && h == Run(bus, start, inputs).1
    requires j < |h.reports|
    ensures |h.resps| <= |h.entries| <= |h.bursts| && j < |h.ops|
    ensures h.reports[j].tag == h.ops[j].tag
    ensures var frames := Split(h.consumed).complete;
            h.reports[j].len == if j < |frames| then Min(|frames[j]|, h.ops[j].len) else h.ops[j].len
    ensures exists n :: ReportsEntry(h, j, n)
    ensures forall n :: ReportsEntry(h, j, n) ==> h.bursts[GroupStart(h.entries, n)..n + 1] <= PlanOf(bus, h.ops[j])
  {
    var e := Run(bus, start, inputs).0;
    RunKeepsInv(bus, start, inputs, []);
    AccountCount(h.entries, h.resps);
    EntryOfReport(h, |h.resps|, j);
    var n :| ReportsEntry(h, j, n);
    ReportIsFinal(h, j, n);
    FinalOf(e.m, h.ops, Split(h.consumed), h.bursts, h.entries, j);
    forall k | ReportsEntry(h, j, k)
      ensures h.bursts[GroupStart(h.entries, k)..k + 1] <= PlanOf(bus, h.ops[j])
    {
      assert GroupIsPlanned(bus, h.ops, h.bursts, h.entries, k);
    }
  }

  lemma RunAppend(bus: Bus, start: Engine, inputs: seq<Input>, i: Input)
    requires bus.Valid() && Reset(start) && LegalRun(bus, inputs) && LegalInput(bus, i)
    ensures LegalRun(bus, inputs + [i])
    ensures var (e, h) := Run(bus, start, inputs);
            Run(bus, start, inputs + [i]) == (Next(bus, e, i), Record(bus, e, i, h))
  {
    assert (inputs + [i])[..|inputs|] == inputs;
  }

  /** The engine's registers, updated together at each clock edge; `inputs` are the cycles since reset. */
  class WriteEngine {
    const bus: Bus
    var m: Machine
    var s: StatusSide
    const out: OutputStage<Beat>
    ghost const start: Engine
    ghost var inputs: seq<Input>

    ghost function State(): Engine
      reads this, out, out.slots
    {
      Engine(m, s, out.State())
    }

    /** The registers are those of a run from reset. */
    ghost predicate Valid()
      reads this, out, out.slots
    {
      && bus.Valid() && out.Valid() && Reset(start) && LegalRun(bus, inputs)
      && State() == Run(bus, start, inputs).0
    }

    constructor (bus: Bus, m: Machine, s: StatusSide)
      requires bus.Valid() && m.phase.Idle? && !m.awvalid && !m.descReady && !m.tready
      requires s.fifo.Valid() && s.fifo.wr == s.fifo.rd == 0 && !s.bready && s.bresp == Okay && s.active == 0
               && s.available
      ensures this.bus == bus && Valid() && fresh(out) && fresh(out.slots)
      ensures State() == start && inputs == []
    {
      this.bus, this.m, this.s, this.inputs := bus, m, s, [];
      var stage := new OutputStage();
      out := stage;
      start := Engine(m, s, stage.State());
    }

    /** The registers, updated together. */
    method Edge(i: Input)
      requires bus.Valid() && out.Valid() && s.fifo.Valid() && (m.phase.Start? ==> 0 < m.opCount)
      modifies `m, `s, out, out.slots
      ensures out.Valid() && out.slots == old(out.slots)
      ensures State() == Next(bus, old(State()), i)
    {
      var (next, fx) := NextMachine(bus, m, i, !out.halfFull, s.available);
      s := NextStatus(s, i, fx.status, fx.issue.Some?);
      m := next;
      out.Clock(fx.push, i.wready);
    }

    /**
     After every cycle, whatever the memory was at reset: the beats since reset store the frames at their
     descriptors' addresses.
     */
    method Clock(i: Input)
      requires Valid() && LegalInput(bus, i)
      modifies this, out, out.slots
      ensures Valid() && out.slots == old(out.slots) && inputs == old(inputs) + [i]
      ensures forall memory :: Stores(bus, m.phase.Idle?, Run(bus, start, inputs).1, memory)
    {
      RunAppend(bus, start, inputs, i);
      Edge(i);
      inputs := inputs + [i];
      forall memory
        ensures Stores(bus, m.phase.Idle?, Run(bus, start, inputs).1, memory)
      {
        WriteIsCorrect(bus, start, inputs, memory);
      }
    }
  }
}
