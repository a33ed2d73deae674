/**
 The 32-entry pointer FIFOs of the two DMA engines and the output stage built on them: a FIFO whose
 half-full flag is registered, followed by one output register.
 */
module OutputFifo {
  import opened Options

  const DEPTH := 32
  const POINTERS := 64

  /** Slots and two pointers that are one bit wider than an index. */
  datatype Ring<T> = Ring(slots: seq<T>, wr: nat, rd: nat) {
    ghost predicate Valid() {
      |slots| == DEPTH && wr < POINTERS && rd < POINTERS
    }

    predicate Empty() { wr == rd }

    /** Equal indices and different wrap bits. */
    predicate Full() { wr == (rd + DEPTH) % POINTERS }

    function Occupancy(): int { (wr - rd) % POINTERS }

    function Push(x: T): Ring<T>
      requires Valid()
    {
      this.(slots := slots[wr % DEPTH := x], wr := (wr + 1) % POINTERS)
    }

    function Pop(): Ring<T> {
      this.(rd := (rd + 1) % POINTERS)
    }

    function Front(): T
      requires Valid()
    {
      slots[rd % DEPTH]
    }

    /** The ring holds `pushed[popped..]`, where `pushed` is everything ever pushed. */
    ghost predicate Represents(pushed: seq<T>, popped: nat) {
      && Valid()
      && popped <= |pushed| <= popped + DEPTH
      && wr == |pushed| % POINTERS
      && rd == popped % POINTERS
      && (forall i :: popped <= i < |pushed| ==> slots[i % DEPTH] == pushed[i])
    }
  }

  lemma RingStatus<T>(r: Ring<T>, pushed: seq<T>, popped: nat)
    requires r.Represents(pushed, popped)
    ensures r.Occupancy() == |pushed| - popped
    ensures r.Empty() <==> |pushed| == popped
    ensures r.Full() <==> |pushed| == popped + DEPTH
    ensures !r.Empty() ==> r.Front() == pushed[popped]
  {
    PointerDistance(|pushed|, popped);
  }

  /** Two counters at most DEPTH apart are told apart by their pointers. */
  lemma PointerDistance(a: nat, b: nat)
    requires b <= a <= b + DEPTH
    ensures (a % POINTERS - b % POINTERS) % POINTERS == a - b
    ensures a % POINTERS == b % POINTERS <==> a == b
    ensures a % POINTERS == (b % POINTERS + DEPTH) % POINTERS <==> a == b + DEPTH
    ensures b % POINTERS % DEPTH == b % DEPTH
  {
    var ra, rb := a % POINTERS, b % POINTERS;
    var laps := a / POINTERS - b / POINTERS;
    assert a - b == laps * POINTERS + ra - rb;
    assert laps == 0 || laps == 1;
    if laps == 0 {
      assert ra - rb == a - b;
    } else {
      assert ra - rb == a - b - POINTERS;
    }
    WrapIndex(b);
  }

  lemma WrapIndex(x: nat)
    ensures x % POINTERS % DEPTH == x % DEPTH
    ensures (x % POINTERS + 1) % POINTERS == (x + 1) % POINTERS
  {
    var q, r := x / POINTERS, x % POINTERS;
    assert x == DEPTH * (2 * q) + r;
  }

  lemma SlotsDiffer(a: nat, b: nat)
    requires b < a < b + DEPTH
    ensures a % DEPTH != b % DEPTH
  {
    var laps := a / DEPTH - b / DEPTH;
    assert a - b == laps * DEPTH + a % DEPTH - b % DEPTH;
  }

  lemma RingPush<T>(r: Ring<T>, pushed: seq<T>, popped: nat, x: T)
    requires r.Represents(pushed, popped) && !r.Full()
    ensures r.Push(x).Represents(pushed + [x], popped)
  {
    RingStatus(r, pushed, popped);
    WrapIndex(|pushed|);
    var slot := |pushed| % DEPTH;
    assert r.Push(x).slots == r.slots[slot := x];
    forall i | popped <= i < |pushed|
      ensures r.slots[slot := x][i % DEPTH] == pushed[i]
    {
      SlotsDiffer(|pushed|, i);
    }
  }

  lemma RingPop<T>(r: Ring<T>, pushed: seq<T>, popped: nat)
    requires r.Represents(pushed, popped) && !r.Empty()
    ensures r.Pop().Represents(pushed, popped + 1)
  {
    RingStatus(r, pushed, popped);
    WrapIndex(popped);
  }

  /** The output stage: FIFO, registered half-full flag and output register. */
  datatype Stage<T> = Stage(ring: Ring<T>, halfFull: bool, reg: T, valid: bool) {

    /** One clock edge; a push into a full FIFO is silently dropped. */
    function Next(push: Option<T>, ready: bool): Stage<T>
      requires ring.Valid()
    {
      var stored := if push.Some? && !ring.Full() then ring.Push(push.value) else ring;
      if !ring.Empty() && (!valid || ready) then
        Stage(Ring(stored.slots, stored.wr, ring.Pop().rd), ring.Occupancy() >= DEPTH / 2, ring.Front(), true)
      else
        Stage(stored, ring.Occupancy() >= DEPTH / 2, reg, valid && !ready)
    }

    /** Entries that left the ring when `delivered` were handed over. */
    ghost function Popped(delivered: nat): nat {
      delivered + if valid then 1 else 0
    }

    /** `delivered` of the entries of `pushed` were handed over; the rest is in the register and the ring. */
    ghost predicate Represents(pushed: seq<T>, delivered: nat) {
      && ring.Represents(pushed, Popped(delivered))
      && (valid ==> reg == pushed[delivered])
    }

    /**
     The back-pressure bound. `gate` is a registered copy of !halfFull that lets a beat in one cycle
     later still, so the flag is obeyed two cycles late.
     */
    ghost predicate Throttled(gate: bool) {
      && ring.Occupancy() <= DEPTH / 2 + 2
      && (gate ==> ring.Occupancy() <= DEPTH / 2 + 1)
      && (!halfFull ==> ring.Occupancy() <= DEPTH / 2)
    }
  }

  lemma StageKeepsOrder<T>(s: Stage<T>, pushed: seq<T>, delivered: nat, push: Option<T>, ready: bool)
    requires s.Represents(pushed, delivered) && (push.Some? ==> !s.ring.Full())
    ensures s.Next(push, ready).Represents(pushed + Optional(push), delivered + if s.valid && ready then 1 else 0)
  {
    var popped := s.Popped(delivered);
    RingStatus(s.ring, pushed, popped);
    var stored := if push.Some? then s.ring.Push(push.value) else s.ring;
    var pushed' := pushed + Optional(push);
    if push.Some? {
      RingPush(s.ring, pushed, popped, push.value);
    } else {
      assert pushed' == pushed;
    }
    if !s.ring.Empty() && (!s.valid || ready) {
      RingStatus(stored, pushed', popped);
      RingPop(stored, pushed', popped);
    }
  }

  /** Two cycles of back-pressure delay never overrun the FIFO, so no beat is dropped. */
  lemma StageStaysThrottled<T>(
      s: Stage<T>, pushed: seq<T>, delivered: nat, push: Option<T>, ready: bool, gate: bool, gate': bool)
    requires s.Represents(pushed, delivered) && s.Throttled(gate)
    requires push.Some? ==> gate || !s.halfFull
    requires gate' ==> !s.halfFull
    ensures push.Some? ==> !s.ring.Full()
    ensures s.Next(push, ready).Throttled(gate')
  {
    RingStatus(s.ring, pushed, s.Popped(delivered));
    StageKeepsOrder(s, pushed, delivered, push, ready);
    var t := s.Next(push, ready);
    var delivered' := delivered + if s.valid && ready then 1 else 0;
    RingStatus(t.ring, pushed + Optional(push), t.Popped(delivered'));
  }

  /** The stage as the engines declare it: one array, two pointers, a flag and a register. */
  class OutputStage<T(0)> {
    var slots: array<T>
    var wr: nat
    var rd: nat
    var halfFull: bool
    var reg: T
    var valid: bool

    ghost predicate Valid()
      reads this
    {
      slots.Length == DEPTH && wr < POINTERS && rd < POINTERS
    }

    ghost function State(): Stage<T>
      reads this, slots
    {
      Stage(Ring(slots[..], wr, rd), halfFull, reg, valid)
    }

    constructor ()
      ensures Valid() && fresh(slots)
      ensures State().Represents([], 0) && State().Throttled(false)
      ensures wr == rd == 0 && !halfFull && !valid
    {
      slots := new T[DEPTH];
      wr, rd, halfFull, valid := 0, 0, false, false;
    }

    method Clock(push: Option<T>, ready: bool)
      requires Valid()
      modifies this, slots
      ensures Valid() && slots == old(slots)
      ensures State() == old(State()).Next(push, ready)
    {
      var full := wr == (rd + DEPTH) % POINTERS;
      var empty := wr == rd;
      var take := !empty && (!valid || ready);
      halfFull := (wr - rd) % POINTERS >= DEPTH / 2;
      valid := valid && !ready;
      if take {
        reg := slots[rd % DEPTH];
        valid := true;
        rd := (rd + 1) % POINTERS;
      }
      if !full && push.Some? {
        slots[wr % DEPTH] := push.value;
        wr := (wr + 1) % POINTERS;
      }
    }
  }
}
