/**
 Burst planning, common to the read and the write engine: how a descriptor is cut into AXI bursts
 that respect the maximum burst length and the 4 KB rule (section A3.4.1 of ARM IHI 0022).
 */
module BurstPlan {
  import opened Arithmetic
  import opened Layout

  /** The parameters AXI_STRB_WIDTH, AXI_MAX_BURST_LEN and 2**AXI_ADDR_WIDTH. */
  datatype Bus = Bus(width: nat, maxLen: nat, space: nat) {
    ghost predicate Valid() {
      0 < width && 4096 % width == 0 && 1 <= maxLen <= 256 && 0 < space
    }

    function MaxBytes(): nat { maxLen * width }

    /** Beats needed for `bytes` bytes that start on a beat boundary; the engines put this minus one in AxLEN. */
    function Beats(bytes: nat): nat
      requires 0 < width && 0 < bytes
    {
      (bytes - 1) / width + 1
    }
  }

  const PAGE := 4096

  /** The value given to tr_word_count_next in the START states. */
  function Transfer(bus: Bus, addr: nat, count: nat): int
    requires 0 < bus.width
  {
    if count <= bus.MaxBytes() - addr % bus.width || bus.MaxBytes() >= PAGE then
      if (addr % PAGE + count % PAGE) / PAGE != 0 || count / PAGE != 0 then
        PAGE - addr % PAGE
      else
        count
    else if (addr % PAGE + bus.MaxBytes()) / PAGE != 0 then
      PAGE - addr % PAGE
    else
      bus.MaxBytes() - addr % bus.width
  }

  lemma PageOffset(bus: Bus, addr: nat)
    requires bus.Valid()
    ensures (addr % PAGE) % bus.width == addr % bus.width
    ensures addr % bus.width <= addr % PAGE
  {
    var w := bus.width;
    var k := PAGE / w * (addr / PAGE);
    assert PAGE / w * w == PAGE;
    assert k * w == PAGE * (addr / PAGE);
    AddMultiple(addr % PAGE, w, k);
    var off := addr % PAGE;
    assert off == w * (off / w) + off % w;
    assert off / w >= 0 by { QuotientIsMonotone(0, off, w); SmallQuotient(0, w); }
  }

  /** From an offset within `max` bytes of the page end, the aligned-down offset is within it too. */
  lemma LateOffset(bus: Bus, addr: nat)
    requires bus.Valid() && addr % PAGE + bus.MaxBytes() >= PAGE
    ensures PAGE - addr % PAGE <= bus.MaxBytes() - addr % bus.width
  {
    var w := bus.width;
    var off := addr % PAGE;
    PageOffset(bus, addr);
    var gap := PAGE / w - bus.maxLen;
    assert PAGE / w * w == PAGE;
    assert gap * w == PAGE - bus.MaxBytes();
    QuotientIsMonotone(gap * w, off, w);
    MultipleIsDivisible(w, gap);
    assert off / w * w >= gap * w;
  }

  /**
   The four branches compute the largest legal transfer: what is left, bounded by the 4 KB page and
   by the maximum burst (which starts at the beat that holds `addr`).
   */
  lemma TransferIsLargestLegal(bus: Bus, addr: nat, count: nat)
    requires bus.Valid()
    ensures Transfer(bus, addr, count)
         == Min(count, Min(PAGE - addr % PAGE, bus.MaxBytes() - addr % bus.width))
  {
    PageOffset(bus, addr);
    if bus.MaxBytes() >= PAGE || addr % PAGE + bus.MaxBytes() >= PAGE {
      LateOffset(bus, addr);
    }
  }

  datatype Burst = Burst(addr: nat, bytes: nat)

  ghost predicate Legal(bus: Bus, b: Burst)
    requires 0 < bus.width
  {
    && 0 < b.bytes
    && b.addr % PAGE + b.bytes <= PAGE
    && bus.Beats(b.addr % bus.width + b.bytes) <= bus.maxLen
  }

  lemma LegalIff(bus: Bus, b: Burst)
    requires bus.Valid()
    ensures Legal(bus, b) <==> 0 < b.bytes <= Min(PAGE - b.addr % PAGE, bus.MaxBytes() - b.addr % bus.width)
  {
    if 0 < b.bytes {
      QuotientBound(b.addr % bus.width + b.bytes - 1, bus.width, bus.maxLen);
    }
  }

  lemma MaxBytesHoldsABeat(bus: Bus)
    requires bus.Valid()
    ensures bus.MaxBytes() >= bus.width
  {
    assert (bus.maxLen - 1) * bus.width >= 0;
  }

  lemma TransferIsLegal(bus: Bus, addr: nat, count: nat)
    requires bus.Valid() && 0 < count
    ensures 0 < Transfer(bus, addr, count) <= count
    ensures Legal(bus, Burst(addr, Transfer(bus, addr, count)))
  {
    TransferIsLargestLegal(bus, addr, count);
    MaxBytesHoldsABeat(bus);
    LegalIff(bus, Burst(addr, Transfer(bus, addr, count)));
  }

  /** A transfer that leaves something over ends on a beat boundary. */
  lemma TransferEndsAligned(bus: Bus, addr: nat, count: nat)
    requires bus.Valid() && 0 < count && addr % bus.width == 0 && Transfer(bus, addr, count) != count
    ensures Transfer(bus, addr, count) % bus.width == 0
    ensures (addr + Transfer(bus, addr, count)) % bus.width == 0
  {
    var w := bus.width;
    var t := Transfer(bus, addr, count);
    TransferIsLargestLegal(bus, addr, count);
    PageOffset(bus, addr);
    MultipleIsDivisible(w, bus.maxLen);
    assert PAGE % w == 0;
    SumOfMultiples(addr % PAGE, PAGE - addr % PAGE, w);
    SumOfMultiples(addr, t, w);
  }

  /** The bursts issued for one descriptor: START is re-entered until op_word_count reaches zero. */
  function Plan(bus: Bus, addr: nat, count: nat): (bursts: seq<Burst>)
    requires bus.Valid()
    decreases count
  {
    if count == 0 then []
    else
      TransferIsLegal(bus, addr, count);
      var t := Transfer(bus, addr, count);
      [Burst(addr, t)] + Plan(bus, addr + t, count - t)
  }

  /** `bursts` covers [addr, addr+count) exactly, in order and without gap or overlap, by legal bursts. */
  ghost predicate Covers(bus: Bus, bursts: seq<Burst>, addr: nat, count: nat)
    requires 0 < bus.width
  {
    && (count == 0 <==> |bursts| == 0)
    && (forall i :: 0 <= i < |bursts| ==> Legal(bus, bursts[i]))
    && (forall i, j :: 0 <= i && j == i + 1 && j < |bursts| ==> bursts[j].addr == bursts[i].addr + bursts[i].bytes)
    && (0 < |bursts| ==>
          && bursts[0].addr == addr
          && bursts[|bursts| - 1].addr + bursts[|bursts| - 1].bytes == addr + count)
  }

  lemma {:induction false} PlanCovers(bus: Bus, addr: nat, count: nat)
    requires bus.Valid()
    ensures Covers(bus, Plan(bus, addr, count), addr, count)
    decreases count
  {
    if count != 0 {
      TransferIsLegal(bus, addr, count);
      var t := Transfer(bus, addr, count);
      PlanCovers(bus, addr + t, count - t);
    }
  }

  /** Every byte of the descriptor lies in exactly one burst. */
  lemma {:induction false} PlanPartitions(bus: Bus, addr: nat, count: nat, x: nat)
    requires bus.Valid() && addr <= x < addr + count
    ensures exists i :: HoldsByte(Plan(bus, addr, count), i, x)
    ensures forall i, j :: HoldsByte(Plan(bus, addr, count), i, x) && HoldsByte(Plan(bus, addr, count), j, x) ==> i == j
    decreases count
  {
    TransferIsLegal(bus, addr, count);
    var t := Transfer(bus, addr, count);
    var p, rest := Plan(bus, addr, count), Plan(bus, addr + t, count - t);
    if x < addr + t {
      assert HoldsByte(p, 0, x);
      forall i | HoldsByte(p, i, x) ensures i == 0 {
        if i > 0 {
          PlanStarts(bus, addr + t, count - t, i - 1);
        }
      }
    } else {
      PlanPartitions(bus, addr + t, count - t, x);
      var k :| HoldsByte(rest, k, x);
      assert HoldsByte(p, k + 1, x);
      forall i | HoldsByte(p, i, x) ensures i == k + 1 {
        assert HoldsByte(rest, i - 1, x);
      }
    }
  }

  ghost predicate HoldsByte(bursts: seq<Burst>, i: int, x: nat) {
    0 <= i < |bursts| && bursts[i].addr <= x < bursts[i].addr + bursts[i].bytes
  }

  lemma {:induction false} PlanStarts(bus: Bus, addr: nat, count: nat, i: nat)
    requires bus.Valid() && i < |Plan(bus, addr, count)|
    ensures Plan(bus, addr, count)[i].addr >= addr
    decreases count
  {
    TransferIsLegal(bus, addr, count);
    var t := Transfer(bus, addr, count);
    if i > 0 {
      PlanStarts(bus, addr + t, count - t, i - 1);
    }
  }

  /** A transfer that starts later reaches at least as far. */
  lemma TransferReaches(bus: Bus, a: nat, b: nat, end: nat)
    requires bus.Valid() && a <= b < end && a % bus.width == 0 && b % bus.width == 0
    ensures a + Transfer(bus, a, end - a) <= b + Transfer(bus, b, end - b)
  {
    TransferIsLargestLegal(bus, a, end - a);
    TransferIsLargestLegal(bus, b, end - b);
    PagesAreOrdered(a, b);
  }

  lemma PagesAreOrdered(a: nat, b: nat)
    requires a <= b
    ensures a - a % PAGE <= b - b % PAGE
  {
  }

  /** Starting later never needs more bursts. */
  lemma {:induction false} PlanIsMonotone(bus: Bus, a: nat, b: nat, end: nat)
    requires bus.Valid() && a <= b <= end && a % bus.width == 0 && b % bus.width == 0
    ensures |Plan(bus, b, end - b)| <= |Plan(bus, a, end - a)|
    decreases end - a
  {
    if b < end {
      var ta, tb := Transfer(bus, a, end - a), Transfer(bus, b, end - b);
      TransferReaches(bus, a, b, end);
      TransferIsLegal(bus, a, end - a);
      TransferIsLegal(bus, b, end - b);
      if a + ta < end {
        TransferEndsAligned(bus, a, end - a);
        if b + tb < end {
          TransferEndsAligned(bus, b, end - b);
          PlanIsMonotone(bus, a + ta, b + tb, end);
        }
      }
    }
  }

  lemma CoverTail(bus: Bus, bursts: seq<Burst>, addr: nat, count: nat)
    requires bus.Valid() && Covers(bus, bursts, addr, count) && 1 < |bursts|
    ensures bursts[0].bytes < count
    ensures Covers(bus, bursts[1..], addr + bursts[0].bytes, count - bursts[0].bytes)
  {
    CoverReaches(bus, bursts, addr, count, 1);
    assert bursts[1].addr == bursts[0].addr + bursts[0].bytes;
  }

  /** Replacing the first planned burst by another legal one does not help. */
  lemma BurstIsWithin(bus: Bus, b: Burst, count: nat)
    requires bus.Valid() && Legal(bus, b) && b.bytes <= count
    ensures b.bytes <= Transfer(bus, b.addr, count)
  {
    TransferIsLargestLegal(bus, b.addr, count);
    LegalIff(bus, b);
  }

  lemma PlanLength(bus: Bus, addr: nat, count: nat)
    requires bus.Valid() && 0 < count
    ensures var t := Transfer(bus, addr, count);
            0 < t <= count && |Plan(bus, addr, count)| == 1 + |Plan(bus, addr + t, count - t)|
  {
    TransferIsLegal(bus, addr, count);
  }

  lemma FirstBurstIsBest(bus: Bus, b: Burst, count: nat)
    requires bus.Valid() && Legal(bus, b) && b.bytes <= count && b.addr % bus.width == 0
    requires b.bytes < count ==> (b.addr + b.bytes) % bus.width == 0
    ensures |Plan(bus, b.addr, count)| <= 1 + |Plan(bus, b.addr + b.bytes, count - b.bytes)|
  {
    var t := Transfer(bus, b.addr, count);
    PlanLength(bus, b.addr, count);
    BurstIsWithin(bus, b, count);
    if t < count {
      TransferEndsAligned(bus, b.addr, count);
      PlanIsMonotone(bus, b.addr + b.bytes, b.addr + t, b.addr + count);
    }
  }

  /** The plan is optimal: no legal way of covering the range with beat-aligned bursts uses fewer. */
  lemma {:induction false} PlanIsShortest(bus: Bus, bursts: seq<Burst>, addr: nat, count: nat)
    requires bus.Valid() && Covers(bus, bursts, addr, count)
    requires forall i :: 0 <= i < |bursts| ==> bursts[i].addr % bus.width == 0
    ensures |Plan(bus, addr, count)| <= |bursts|
    decreases |bursts|
  {
    if |bursts| == 1 {
      FirstBurstIsBest(bus, bursts[0], count);
    } else if |bursts| > 1 {
      CoverTail(bus, bursts, addr, count);
      var u := bursts[0].bytes;
      assert bursts[1].addr == addr + u;
      FirstBurstIsBest(bus, bursts[0], count);
      PlanIsShortest(bus, bursts[1..], addr + u, count - u);
    }
  }

  lemma {:induction false} CoverReaches(bus: Bus, bursts: seq<Burst>, addr: nat, count: nat, i: nat)
    requires bus.Valid() && Covers(bus, bursts, addr, count) && i < |bursts|
    ensures bursts[i].addr < addr + count
    decreases |bursts| - i
  {
    if i + 1 < |bursts| {
      CoverReaches(bus, bursts, addr, count, i + 1);
      assert bursts[i + 1].addr == bursts[i].addr + bursts[i].bytes;
    }
  }

  /** The byte address of every beat of a burst, as an AXI slave computes it for AxBURST = INCR. */
  function BeatAddresses(bus: Bus, b: Burst): (addrs: seq<nat>)
    requires 0 < bus.width && 0 < b.bytes
  {
    Steps(b.addr, bus.width, bus.Beats(b.bytes))
  }

  function Steps(addr: nat, width: nat, n: nat): (addrs: seq<nat>) {
    seq(n, k requires 0 <= k < n => addr + k * width)
  }

  /** The beat addresses of a list of bursts, in order. */
  function SlaveAddresses(bus: Bus, bursts: seq<Burst>): (addrs: seq<nat>)
    requires 0 < bus.width && forall b <- bursts :: 0 < b.bytes
  {
    if bursts == [] then []
    else SlaveAddresses(bus, bursts[..|bursts| - 1]) + BeatAddresses(bus, bursts[|bursts| - 1])
  }

  /** wlast and rlast as AXI wants them: on the last beat of every burst, and nowhere else. */
  function LastFlags(bus: Bus, bursts: seq<Burst>): (flags: seq<bool>)
    requires 0 < bus.width && forall b <- bursts :: 0 < b.bytes
  {
    if bursts == [] then []
    else LastFlags(bus, bursts[..|bursts| - 1]) + EndFlags(bus.Beats(bursts[|bursts| - 1].bytes))
  }

  function EndFlags(n: nat): (flags: seq<bool>) { seq(n, k => k + 1 == n) }

  lemma {:induction false} SlaveAddressesConcat(bus: Bus, x: seq<Burst>, y: seq<Burst>)
    requires 0 < bus.width && (forall b <- x :: 0 < b.bytes) && (forall b <- y :: 0 < b.bytes)
    ensures SlaveAddresses(bus, x + y) == SlaveAddresses(bus, x) + SlaveAddresses(bus, y)
  {
    if y == [] {
      assert x + y == x;
    } else {
      var y' := y[..|y| - 1];
      assert (x + y)[..|x + y| - 1] == x + y';
      SlaveAddressesConcat(bus, x, y');
    }
  }

  lemma PlanHasBytes(bus: Bus, addr: nat, count: nat)
    requires bus.Valid()
    ensures forall b <- Plan(bus, addr, count) :: 0 < b.bytes
  {
    PlanCovers(bus, addr, count);
  }

  /** A beat-aligned plan asks for exactly the beats of [addr, addr+count), one after the other. */
  lemma {:induction false} PlanBeats(bus: Bus, addr: nat, count: nat)
    requires bus.Valid() && addr % bus.width == 0 && 0 < count
    ensures forall b <- Plan(bus, addr, count) :: 0 < b.bytes
    ensures SlaveAddresses(bus, Plan(bus, addr, count)) == Steps(addr, bus.width, bus.Beats(count))
    decreases count
  {
    PlanHasBytes(bus, addr, count);
    TransferIsLegal(bus, addr, count);
    var t := Transfer(bus, addr, count);
    var first, rest := Burst(addr, t), Plan(bus, addr + t, count - t);
    SlaveAddressesConcat(bus, [first], rest);
    assert SlaveAddresses(bus, [first]) == BeatAddresses(bus, first) by {
      assert [first][..0] == [];
    }
    if t < count {
      TransferEndsAligned(bus, addr, count);
      PlanBeats(bus, addr + t, count - t);
      SplitBeats(bus, t, count);
      StepsConcat(addr, bus.width, bus.Beats(t), bus.Beats(count - t));
    }
  }

  lemma StepsConcat(addr: nat, width: nat, m: nat, n: nat)
    ensures Steps(addr, width, m) + Steps(addr + m * width, width, n) == Steps(addr, width, m + n)
  {
    forall k | m <= k < m + n
      ensures addr + m * width + (k - m) * width == addr + k * width
    {
    }
  }

  lemma SplitBeats(bus: Bus, t: nat, count: nat)
    requires bus.Valid() && 0 < t < count && t % bus.width == 0
    ensures bus.Beats(t) * bus.width == t
    ensures bus.Beats(count) == bus.Beats(t) + bus.Beats(count - t)
  {
    var w := bus.width;
    SumOfMultiples(t, -1, w);
    QuotientIsUnique(-1, w, -1, w - 1);
    SumOfMultiples(t, count - t - 1, w);
  }

  // ---------------------------------------------------------------------------------------------
  // One slot, one burst
  // ---------------------------------------------------------------------------------------------

  /** The buses of both instances: 64 bits wide, bursts of up to 256 beats, 32 address bits. */
  const AXI64 := Bus(8, 256, 0x1_0000_0000)

  /** Every transfer that starts on a slot and stays inside it is planned as a single burst. */
  lemma SlotIsOneBurst(addr: nat, count: nat)
    requires addr % SLOT == 0 && 0 < count <= SLOT
    ensures Plan(AXI64, addr, count) == [Burst(addr, count)]
  {
    TransferIsLargestLegal(AXI64, addr, count);
    assert Transfer(AXI64, addr, count) == count;
    assert Plan(AXI64, addr + count, 0) == [];
  }

  /** In general a transfer is one burst exactly when it ends within the page and within the longest burst. */
  lemma OneBurstIff(bus: Bus, addr: nat, count: nat)
    requires bus.Valid() && 0 < count
    ensures |Plan(bus, addr, count)| == 1 <==>
            count <= Min(PAGE - addr % PAGE, bus.MaxBytes() - addr % bus.width)
  {
    TransferIsLargestLegal(bus, addr, count);
    TransferIsLegal(bus, addr, count);
  }
}
