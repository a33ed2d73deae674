/**
 Ring-buffer control: the registers circular_buffer keeps for one buffer, and the bounded FIFO queue
 they implement.
 */
module CircularBuffer {
  import opened Options
  import opened Arithmetic

  datatype Registers = Registers(head: nat, tail: nat, full: bool, empty: bool)

  const RESET := Registers(0, 0, false, true)

  /** head_index_next and tail_index_next. */
  function Increment(length: nat, index: nat): nat {
    if index < length - 1 then index + 1 else 0
  }

  /** One clock edge. */
  function Next(length: nat, r: Registers, push: bool, pop: bool): Registers {
    var head', tail' := Increment(length, r.head), Increment(length, r.tail);
    Registers(
      if push then head' else r.head,
      if pop then tail' else r.tail,
      if !push && pop then false else if push && !pop then head' == r.tail else r.full,
      if push && !pop then false else if pop && !push then tail' == r.head else r.empty)
  }

  /** The k-th slot from `index` on, going round. */
  function Slot(length: nat, index: nat, k: nat): int {
    if index + k < length then index + k else index + k - length
  }

  lemma SlotIsModular(length: nat, index: nat, k: nat)
    requires index < length && k <= length
    ensures Slot(length, index, k) == (index + k) % length
  {
    if index + k < length {
      SmallQuotient(index + k, length);
    } else {
      QuotientIsUnique(index + k, length, 1, index + k - length);
    }
  }

  /** The registers describe a queue of `count` entries. */
  ghost predicate Tracks(length: nat, r: Registers, count: int) {
    && r.head < length && r.tail < length
    && 0 <= count <= length
    && r.head == Slot(length, r.tail, count)
    && (r.full <==> count == length)
    && (r.empty <==> count == 0)
  }

  /** The registers and the slots describe the queue `items`, oldest first. */
  ghost predicate Represents<T>(length: nat, r: Registers, slots: seq<T>, items: seq<T>) {
    && |slots| == length
    && Tracks(length, r, |items|)
    && (forall k :: 0 <= k < |items| ==> slots[Slot(length, r.tail, k)] == items[k])
  }

  /** The writer stores into the head slot before it pushes. */
  function Stored<T>(r: Registers, slots: seq<T>, push: Option<T>): (s: seq<T>)
    requires r.head < |slots|
  {
    if push.Some? then slots[r.head := push.value] else slots
  }

  predicate Permitted(r: Registers, push: bool, pop: bool) {
    (push ==> !r.full || pop) && (pop ==> !r.empty)
  }

  /** Any permitted combination of push and pop, also both at once, is the queue operation. */
  lemma StepRefinesQueue<T>(length: nat, r: Registers, slots: seq<T>, items: seq<T>, push: Option<T>, pop: bool)
    requires Represents(length, r, slots, items) && Permitted(r, push.Some?, pop)
    ensures Represents(length, Next(length, r, push.Some?, pop), Stored(r, slots, push),
                       (if pop then items[1..] else items) + Optional(push))
  {
    var r' := Next(length, r, push.Some?, pop);
    var items' := (if pop then items[1..] else items) + Optional(push);
    forall k | 0 <= k < |items'|
      ensures Stored(r, slots, push)[Slot(length, r'.tail, k)] == items'[k]
    {
      var k0 := if pop then k + 1 else k;
      assert Slot(length, r'.tail, k) == Slot(length, r.tail, k0);
    }
  }

  /** The counter follows the pulses exactly when no lone push meets a full buffer and no lone pop an empty one. */
  lemma CountFollowsIff(length: nat, r: Registers, count: int, push: bool, pop: bool)
    requires Tracks(length, r, count)
    ensures Tracks(length, Next(length, r, push, pop), count + (if push then 1 else 0) - if pop then 1 else 0)
            <==> (push && !pop ==> !r.full) && (pop && !push ==> !r.empty)
  {
  }

  /** A lone push into a full buffer loses everything: the buffer then looks as if it held one entry. */
  lemma OverrunForgets(length: nat, r: Registers)
    requires 1 < length && Tracks(length, r, length)
    ensures Tracks(length, Next(length, r, true, false), 1)
  {
  }

  /** A lone pop of an empty buffer invents entries: the buffer then looks nearly full. */
  lemma UnderrunInvents(length: nat, r: Registers)
    requires 1 < length && Tracks(length, r, 0)
    ensures Tracks(length, Next(length, r, false, true), length - 1)
  {
  }

  datatype Operation<T> = Operation(push: Option<T>, pop: bool)

  datatype Ring<T> = Ring(r: Registers, slots: seq<T>, popped: seq<T>)

  function Apply<T>(length: nat, b: Ring<T>, op: Operation<T>): (b': Ring<T>)
    requires |b.slots| == length && b.r.head < length && b.r.tail < length
    ensures |b'.slots| == length && b'.r.head < length && b'.r.tail < length
  {
    Ring(
      Next(length, b.r, op.push.Some?, op.pop),
      Stored(b.r, b.slots, op.push),
      if op.pop then b.popped + [b.slots[b.r.tail]] else b.popped)
  }

  /** The ring after a run of clock cycles. */
  function Run<T>(length: nat, slots: seq<T>, ops: seq<Operation<T>>): (b: Ring<T>)
    requires |slots| == length && 0 < length
    ensures |b.slots| == length && b.r.head < length && b.r.tail < length
  {
    if ops == [] then Ring(RESET, slots, [])
    else Apply(length, Run(length, slots, ops[..|ops| - 1]), ops[|ops| - 1])
  }

  ghost predicate PermittedRun<T>(length: nat, slots: seq<T>, ops: seq<Operation<T>>)
    requires |slots| == length && 0 < length
  {
    ops == [] ||
    (&& PermittedRun(length, slots, ops[..|ops| - 1])
     && Permitted(Run(length, slots, ops[..|ops| - 1]).r, ops[|ops| - 1].push.Some?, ops[|ops| - 1].pop))
  }

  function Pushed<T>(ops: seq<Operation<T>>): (items: seq<T>) {
    if ops == [] then [] else Pushed(ops[..|ops| - 1]) + Optional(ops[|ops| - 1].push)
  }

  /** A pop moves the oldest item to the popped ones, and a push appends one: nothing is lost or reordered. */
  lemma QueueMoves<T>(popped: seq<T>, items: seq<T>, pop: bool, pushed: seq<T>)
    requires pop ==> items != []
    ensures (if pop then popped + [items[0]] else popped) + ((if pop then items[1..] else items) + pushed)
         == popped + items + pushed
  {
    if pop {
      assert items == [items[0]] + items[1..];
    }
  }

  /** Over any permitted run, slots are read in write order, each once, and the flags tell the number left. */
  lemma {:induction false} RunIsQueue<T>(length: nat, slots: seq<T>, ops: seq<Operation<T>>) returns (items: seq<T>)
    requires |slots| == length && 0 < length && PermittedRun(length, slots, ops)
    ensures var b := Run(length, slots, ops);
            Represents(length, b.r, b.slots, items) && b.popped + items == Pushed(ops)
  {
    if ops == [] {
      items := [];
    } else {
      var earlier, op := ops[..|ops| - 1], ops[|ops| - 1];
      var before := Run(length, slots, earlier);
      items := RunIsQueue(length, slots, earlier);
      StepRefinesQueue(length, before.r, before.slots, items, op.push, op.pop);
      QueueMoves(before.popped, items, op.pop, Optional(op.push));
      items := (if op.pop then items[1..] else items) + Optional(op.push);
    }
  }

  /** The module as declared: four registers, updated together. */
  class Control {
    const length: nat
    var head: nat
    var tail: nat
    var full: bool
    var empty: bool

    ghost function State(): Registers
      reads this
    {
      Registers(head, tail, full, empty)
    }

    constructor (length: nat)
      ensures this.length == length && State() == RESET
    {
      this.length := length;
      head, tail, full, empty := 0, 0, false, true;
    }

    method Clock(push: bool, pop: bool)
      modifies this
      ensures State() == Next(length, old(State()), push, pop)
    {
      var headNext := if head < length - 1 then head + 1 else 0;
      var tailNext := if tail < length - 1 then tail + 1 else 0;
      if !push && pop {
        full := false;
      } else if push && !pop {
        full := headNext == tail;
      }
      if push && !pop {
        empty := false;
      } else if pop && !push {
        empty := tailNext == head;
      }
      if push {
        head := headNext;
      }
      if pop {
        tail := tailNext;
      }
    }
  }
}
