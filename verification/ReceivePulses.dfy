/** The push pulse of the receive path: wlast, which the controller takes for "a packet is in its slot". */
module ReceivePulses {
  import opened Layout
  import opened BurstPlan
  import opened Memory
  import opened Stream
  import W = WriteDma
  import P = WriteDmaProof

  /** The controller's descriptors: they start on a slot and end inside it. */
  ghost predicate SlotOps(ops: seq<W.Descriptor>) {
    forall j :: 0 <= j < |ops| ==> ops[j].addr % SLOT == 0 && 0 < ops[j].len <= SLOT
  }

  function Pulses(flags: seq<bool>): (n: nat) {
    if flags == [] then 0 else Pulses(flags[..|flags| - 1]) + if flags[|flags| - 1] then 1 else 0
  }

  lemma {:induction false} PulsesConcat(x: seq<bool>, y: seq<bool>)
    ensures Pulses(x + y) == Pulses(x) + Pulses(y)
  {
    if y == [] {
      assert x + y == x;
    } else {
      PulsesConcat(x, y[..|y| - 1]);
      assert (x + y)[..|x + y| - 1] == x + y[..|y| - 1];
    }
  }

  lemma {:induction false} NoPulses(flags: seq<bool>)
    requires forall k :: 0 <= k < |flags| ==> !flags[k]
    ensures Pulses(flags) == 0
  {
    if flags != [] {
      NoPulses(flags[..|flags| - 1]);
    }
  }

  /** Every burst has one last beat. */
  lemma {:induction false} PulsesOfBursts(bus: Bus, bursts: seq<Burst>)
    requires bus.Valid() && forall b <- bursts :: 0 < b.bytes
    ensures Pulses(LastFlags(bus, bursts)) == |bursts|
  {
    if bursts != [] {
      var n := |bursts| - 1;
      var end := EndFlags(bus.Beats(bursts[n].bytes));
      PulsesOfBursts(bus, bursts[..n]);
      NoPulses(end[..|end| - 1]);
      PulsesConcat(LastFlags(bus, bursts[..n]), end);
    }
  }

  lemma GroupOfOne(ops: seq<W.Descriptor>, bursts: seq<Burst>, entries: seq<W.StatusEntry>, n: nat)
    requires SlotOps(ops) && n < |entries| <= |bursts| && P.GroupIsPlanned(AXI64, ops, bursts, entries, n)
    ensures P.GroupStart(entries, n) == n
  {
    var op := ops[|P.Finals(entries[..n])|];
    assert Aligned(AXI64, op.addr) == op.addr;
    SlotIsOneBurst(op.addr, op.len);
  }

  /** Every burst that ends a descriptor is its first. */
  ghost predicate Alone(entries: seq<W.StatusEntry>) {
    forall n :: 0 <= n < |entries| && entries[n].last ==> P.GroupStart(entries, n) == n
  }

  lemma FinalsAreAlone(ops: seq<W.Descriptor>, bursts: seq<Burst>, entries: seq<W.StatusEntry>)
    requires SlotOps(ops) && |entries| <= |bursts|
    requires forall n :: 0 <= n < |entries| && entries[n].last ==> P.GroupIsPlanned(AXI64, ops, bursts, entries, n)
    ensures Alone(entries)
  {
    forall n | 0 <= n < |entries| && entries[n].last
      ensures P.GroupStart(entries, n) == n
    {
      GroupOfOne(ops, bursts, entries, n);
    }
  }

  /** A descriptor that ends inside its slot is one burst, so its entry is its final entry. */
  lemma {:induction false} AllFinal(entries: seq<W.StatusEntry>, k: nat)
    requires k <= |entries| && Alone(entries) && P.GroupStart(entries, |entries|) == |entries|
    ensures forall n :: k <= n < |entries| ==> entries[n].last
    decreases |entries| - k
  {
    if k < |entries| {
      AllFinal(entries, k + 1);
      assert P.GroupStart(entries, k + 1) == k + 1;
    }
  }

  lemma {:induction false} FinalsOfFinal(entries: seq<W.StatusEntry>)
    requires forall n :: 0 <= n < |entries| ==> entries[n].last
    ensures |P.Finals(entries)| == |entries|
  {
    if entries != [] {
      FinalsOfFinal(entries[..|entries| - 1]);
    }
  }

  /** One packet, one push: whenever the engine is idle, it has made one wlast beat for each packet. */
  lemma OnePushPerPacket(start: W.Engine, inputs: seq<W.Input>, e: W.Engine, h: W.History)
    requires W.Reset(start) && P.LegalRun(AXI64, inputs) && (e, h) == P.Run(AXI64, start, inputs)
    requires SlotOps(h.ops) && e.m.phase.Idle?
    ensures |h.bursts| == |h.ops| == |Split(h.consumed).complete|
    ensures Pulses(P.LastOf(h.pushed)) == |h.ops|
  {
    P.RunKeepsInv(AXI64, start, inputs, []);
    EveryEntryIsFinal(e.m, h.ops, Split(h.consumed), h.bursts, h.entries);
    PulsesAreBursts(e.m, P.Cursor(AXI64, e.m, h.ops, Split(h.consumed)), h.bursts, h.pushed);
  }

  lemma PulsesAreBursts(m: W.Machine, at: nat, bursts: seq<Burst>, pushed: seq<Beat>)
    requires P.BeatInv(AXI64, m, at, bursts, pushed) && P.Owed(m) == 0
    ensures Pulses(P.LastOf(pushed)) == |bursts|
  {
    var flags := LastFlags(AXI64, bursts);
    PulsesOfBursts(AXI64, bursts);
    assert flags[..|flags|] == flags;
  }

  lemma EveryEntryIsFinal(m: W.Machine, ops: seq<W.Descriptor>, f: Frames, bursts: seq<Burst>,
                          entries: seq<W.StatusEntry>)
    requires m.phase.Idle? && |ops| == |f.complete| && SlotOps(ops)
    requires P.EntryInv(m, ops, f, bursts, entries) && P.PlanInv(AXI64, m, ops, bursts, entries)
    ensures |bursts| == |ops|
  {
    FinalsAreAlone(ops, bursts, entries);
    AllFinal(entries, 0);
    FinalsOfFinal(entries);
  }
}
