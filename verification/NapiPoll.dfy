/** The NAPI poll function: sweeps over the open ports until one finds nothing or the budget is used up. */
module NapiPoll {

  /** A read of a port's control register, and what its empty bit said. */
  datatype Read = Read(port: nat, empty: bool)

  /** A packet handed to the network stack, and the buffer it came from. */
  datatype Delivery<T> = Delivery(buffer: nat, packet: T)

  /** The packets delivered from one buffer. */
  function From<T>(deliveries: seq<Delivery<T>>, buffer: nat): (packets: seq<T>) {
    if deliveries == [] then []
    else
      var d := deliveries[|deliveries| - 1];
      From(deliveries[..|deliveries| - 1], buffer) + if d.buffer == buffer then [d.packet] else []
  }

  /** The buffers in which a trace of reads found a packet. */
  function Targets(open: seq<nat>, trace: seq<Read>): (buffers: seq<nat>)
    requires forall k :: 0 <= k < |trace| ==> trace[k].port < |open|
  {
    if trace == [] then []
    else
      var r := trace[|trace| - 1];
      Targets(open, trace[..|trace| - 1]) + if r.empty then [] else [open[r.port]]
  }

  /** Times a trace found a packet at a port. */
  function Served(trace: seq<Read>, port: nat): (n: nat) {
    if trace == [] then 0
    else
      var r := trace[|trace| - 1];
      Served(trace[..|trace| - 1], port) + if r.port == port && !r.empty then 1 else 0
  }

  /** Ports are read in turn, starting with the first. */
  ghost predicate InTurn(trace: seq<Read>, n: nat) {
    && (forall k :: 0 <= k < |trace| ==> trace[k].port < n)
    && (0 < |trace| ==> trace[0].port == 0)
    && (forall k, l :: 0 <= k && l == k + 1 && l < |trace| ==>
          trace[l].port == if trace[k].port + 1 == n then 0 else trace[k].port + 1)
  }

  function BuffersOf<T>(deliveries: seq<Delivery<T>>): (buffers: seq<nat>) {
    seq(|deliveries|, k requires 0 <= k < |deliveries| => deliveries[k].buffer)
  }

  /** Ports were read in turn, and each packet found was delivered. */
  ghost predicate Serves<T>(open: seq<nat>, trace: seq<Read>, out: seq<Delivery<T>>) {
    InTurn(trace, |open|) && BuffersOf(out) == Targets(open, trace)
  }

  /** The trace ends with a sweep over all ports that saw every one of them empty. */
  ghost predicate EndsEmpty(trace: seq<Read>, n: nat) {
    n <= |trace| && forall p :: 0 <= p < n ==> trace[|trace| - n + p] == Read(p, true)
  }

  ghost predicate NeverEmpty(trace: seq<Read>, port: nat) {
    forall k :: 0 <= k < |trace| && trace[k].port == port ==> !trace[k].empty
  }

  /** Round robin: of two ports that always had a packet, the earlier one is at most one turn ahead. */
  lemma {:induction false} TurnsAreFair(trace: seq<Read>, n: nat, p: nat, q: nat)
    requires InTurn(trace, n) && p < q < n && NeverEmpty(trace, p) && NeverEmpty(trace, q)
    ensures Served(trace, p) ==
            Served(trace, q) + if trace != [] && p <= trace[|trace| - 1].port < q then 1 else 0
  {
    if |trace| > 1 {
      var m := |trace| - 1;
      TurnsAreFair(trace[..m], n, p, q);
      assert trace[m].port == if trace[m - 1].port + 1 == n then 0 else trace[m - 1].port + 1;
    } else if trace != [] {
      assert trace[..0] == [];
    }
  }

  /** With no buffer listed twice, a port's turns are its buffer's deliveries. */
  lemma {:induction false} ServedIsDelivered<T>(open: seq<nat>, trace: seq<Read>, deliveries: seq<Delivery<T>>, p: nat)
    requires forall i, j :: 0 <= i < j < |open| ==> open[i] != open[j]
    requires forall k :: 0 <= k < |trace| ==> trace[k].port < |open|
    requires p < |open| && BuffersOf(deliveries) == Targets(open, trace)
    ensures |From(deliveries, open[p])| == Served(trace, p)
  {
    if trace != [] {
      var r := trace[|trace| - 1];
      var targets, earlier := Targets(open, trace), Targets(open, trace[..|trace| - 1]);
      var before := if r.empty then deliveries else deliveries[..|deliveries| - 1];
      assert |targets| == |BuffersOf(deliveries)| == |deliveries|;
      assert BuffersOf(before) == targets[..|before|] == earlier;
      assert !r.empty ==> deliveries[|before|].buffer == targets[|before|] == open[r.port];
      ServedIsDelivered(open, trace[..|trace| - 1], before, p);
    }
  }

  /** Two buffers that never run empty are served equally often, give or take one packet. */
  lemma ServiceIsFair<T>(open: seq<nat>, trace: seq<Read>, deliveries: seq<Delivery<T>>, p: nat, q: nat)
    requires forall i, j :: 0 <= i < j < |open| ==> open[i] != open[j]
    requires Serves(open, trace, deliveries)
    requires p < |open| && q < |open| && NeverEmpty(trace, p) && NeverEmpty(trace, q)
    ensures -1 <= |From(deliveries, open[p])| - |From(deliveries, open[q])| <= 1
  {
    ServedIsDelivered(open, trace, deliveries, p);
    ServedIsDelivered(open, trace, deliveries, q);
    if p < q {
      TurnsAreFair(trace, |open|, p, q);
    } else if q < p {
      TurnsAreFair(trace, |open|, q, p);
    }
  }

  /** Packets that arrived for a buffer from time `t0` to `t1`. */
  function Came<T>(arrivals: (nat, nat) -> seq<T>, buffer: nat, t0: nat, t1: nat): (packets: seq<T>)
    requires t0 <= t1
    decreases t1
  {
    if t0 == t1 then [] else Came(arrivals, buffer, t0, t1 - 1) + arrivals(t1 - 1, buffer)
  }

  ghost predicate Succeed(allocations: seq<bool>) {
    forall k :: 0 <= k < |allocations| ==> allocations[k]
  }

  lemma ServesNext<T>(open: seq<nat>, trace: seq<Read>, out: seq<Delivery<T>>, r: Read, more: seq<Delivery<T>>)
    requires Serves(open, trace, out) && r.port < |open|
    requires trace == [] ==> r.port == 0
    requires trace != [] ==> trace[|trace| - 1].port + 1 == if r.port == 0 then |open| else r.port
    requires BuffersOf(more) == if r.empty then [] else [open[r.port]]
    ensures Serves(open, trace + [r], out + more)
  {
    var trace' := trace + [r];
    assert trace'[..|trace|] == trace;
    assert BuffersOf(out + more) == BuffersOf(out) + BuffersOf(more);
  }

  /** The device and the rest of the kernel, as the poll function sees them. */
  class Device<T> {
    /** What the hardware pushes into a buffer before the k-th register read. */
    const arrivals: (nat, nat) -> seq<T>
    var waiting: seq<seq<T>>
    var clock: nat
    /** Outcomes of the next skb allocations; later ones succeed. */
    var allocations: seq<bool>
    var delivered: seq<Delivery<T>>
    var log: seq<Read>
    /** Global interrupt enable. */
    var interrupts: bool

    constructor (arrivals: (nat, nat) -> seq<T>, waiting: seq<seq<T>>, allocations: seq<bool>)
      ensures this.arrivals == arrivals && this.waiting == waiting && clock == 0
      ensures this.allocations == allocations && delivered == [] && log == []
    {
      this.arrivals, this.waiting, this.allocations := arrivals, waiting, allocations;
      clock, delivered, log, interrupts := 0, [], [], false;
    }

    /** What has passed through a buffer since the start: delivered, then still waiting. */
    ghost function Passed(buffer: nat): seq<T>
      requires buffer < |waiting|
      reads this
    {
      From(delivered, buffer) + waiting[buffer]
    }

    /** Time goes on, and the control register of a port's buffer is read. */
    method ReadPort(port: nat, buffer: nat) returns (empty: bool)
      requires buffer < |waiting|
      modifies `waiting, `clock, `log
      ensures clock == old(clock) + 1 && |waiting| == old(|waiting|)
      ensures forall b :: 0 <= b < |waiting| ==> Passed(b) == old(Passed(b)) + arrivals(old(clock), b)
      ensures empty == (waiting[buffer] == []) && log == old(log) + [Read(port, empty)]
    {
      var before, now := waiting, clock;
      waiting := seq(|before|, b requires 0 <= b < |before| => before[b] + arrivals(now, b));
      clock := clock + 1;
      empty := waiting[buffer] == [];
      log := log + [Read(port, empty)];
      forall b | 0 <= b < |waiting| ensures Passed(b) == old(Passed(b)) + arrivals(old(clock), b) {
        assert waiting[b] == before[b] + arrivals(old(clock), b);
      }
    }

    method Allocate() returns (ok: bool)
      modifies `allocations
      ensures old(allocations) == [] ==> ok && allocations == []
      ensures old(allocations) != [] ==> ok == old(allocations)[0] && allocations == old(allocations)[1..]
    {
      ok := true;
      if allocations != [] {
        ok, allocations := allocations[0], allocations[1..];
      }
    }

    /** The slot at the tail goes to the stack, and the pop is notified. */
    method Deliver(buffer: nat)
      requires buffer < |waiting| && waiting[buffer] != []
      modifies `waiting, `delivered
      ensures |waiting| == old(|waiting|)
      ensures delivered == old(delivered) + [Delivery(buffer, old(waiting[buffer])[0])]
      ensures forall b :: 0 <= b < |waiting| ==> Passed(b) == old(Passed(b))
    {
      ghost var before := delivered;
      delivered := delivered + [Delivery(buffer, waiting[buffer][0])];
      waiting := waiting[buffer := waiting[buffer][1..]];
      assert delivered[..|before|] == before;
    }

    ghost function AllPassed(): seq<seq<T>>
      reads this
    {
      seq(|waiting|, b requires 0 <= b < |waiting| reads this => Passed(b))
    }

    /** Since the given state every buffer's packets have only moved on, in order, and new ones come behind them. */
    ghost predicate Conserves(passed: seq<seq<T>>, since: nat)
      reads this
    {
      && |passed| == |waiting| && since <= clock
      && forall b :: 0 <= b < |waiting| ==> Passed(b) == passed[b] + Came(arrivals, b, since, clock)
    }

    /**
     One iteration of the inner loop: the port is read, and its packet delivered if there is one and an skb for it.
     */
    method Visit(open: seq<nat>, port: nat, ghost passed: seq<seq<T>>, ghost since: nat) returns (empty: bool, ok: bool)
      requires port < |open| && open[port] < |waiting| && Conserves(passed, since)
      modifies `waiting, `clock, `log, `allocations, `delivered
      ensures Conserves(passed, since)
      ensures log == old(log) + [Read(port, empty)]
      ensures empty || !ok ==> delivered == old(delivered)
      ensures !empty && ok ==> exists x :: delivered == old(delivered) + [Delivery(open[port], x)]
      ensures empty ==> allocations == old(allocations)
      ensures !empty ==> |allocations| <= old(|allocations|) && (!ok ==> |allocations| < old(|allocations|))
      ensures Succeed(old(allocations)) ==> Succeed(allocations) && (empty || ok)
    {
      empty := ReadPort(port, open[port]);
      ok := true;
      assert Conserves(passed, since) by {
        forall b | 0 <= b < |waiting| ensures Passed(b) == passed[b] + Came(arrivals, b, since, clock) {
          assert Came(arrivals, b, since, clock) == Came(arrivals, b, since, clock - 1) + arrivals(clock - 1, b);
        }
      }
      if !empty {
        ok := Allocate();
        if ok {
          Deliver(open[port]);
        }
      }
    }

    /**
     Terminates within the budget. Packets leave each buffer in its order, one per pop; returning below
     the budget means the last full sweep found every open buffer empty; and while skb allocation
     succeeds, ports are served in turn.
     */
    method RxPoll(open: seq<nat>, budget: nat) returns (processed: nat)
      requires forall p :: 0 <= p < |open| ==> open[p] < |waiting|
      modifies this
      ensures processed <= budget
      ensures Conserves(old(AllPassed()), old(clock))
      ensures old(log) <= log && old(delivered) <= delivered
      ensures |delivered| == old(|delivered|) + processed
      ensures processed < budget ==> EndsEmpty(log[|old(log)|..], |open|)
      ensures Succeed(old(allocations)) ==> Serves(open, log[|old(log)|..], delivered[|old(delivered)|..])
      ensures interrupts == (old(interrupts) || processed < budget)
    {
      ghost var passed, since, lucky := AllPassed(), clock, Succeed(allocations);
      ghost var trace: seq<Read>, out: seq<Delivery<T>> := [], [];
      processed := 0;
      var again := true;
      while again
        invariant Conserves(passed, since) && |waiting| == old(|waiting|)
        invariant log == old(log) + trace && delivered == old(delivered) + out
        invariant |out| == processed <= budget && interrupts == old(interrupts)
        invariant !again && processed < budget ==> EndsEmpty(trace, |open|)
        invariant lucky ==> Succeed(allocations) && Serves(open, trace, out)
        invariant lucky && again && trace != [] ==> trace[|trace| - 1].port + 1 == |open|
        decreases |allocations| + budget - processed, again
      {
        var found, port := false, 0;
        ghost var left := |allocations| + budget - processed;
        while port < |open| && processed < budget
          invariant Conserves(passed, since) && |waiting| == old(|waiting|)
          invariant log == old(log) + trace && delivered == old(delivered) + out
          invariant |out| == processed <= budget && port <= |open| && interrupts == old(interrupts)
          invariant if found then |allocations| + budget - processed < left
                    else |allocations| + budget - processed == left
          invariant !found ==> EndsEmpty(trace, port)
          invariant lucky ==> Succeed(allocations) && Serves(open, trace, out)
          invariant lucky && trace != [] ==> trace[|trace| - 1].port + 1 == if port == 0 then |open| else port
          invariant lucky && trace == [] ==> port == 0
        {
          ghost var before := delivered;
          var empty, ok := Visit(open, port, passed, since);
          ghost var more := delivered[|before|..];
          assert more == [] || exists x :: more == [Delivery(open[port], x)];
          if lucky {
            ServesNext(open, trace, out, Read(port, empty), more);
          }
          trace, out := trace + [Read(port, empty)], out + more;
          if !empty {
            found := true;
            if !ok {
              break;
            }
            processed := processed + 1;
          }
          port := port + 1;
        }
        again := found && processed < budget;
      }
      if processed < budget {
        interrupts := true;
      }
      assert log[|old(log)|..] == trace && delivered[|old(delivered)|..] == out;
    }
  }
}
