/** The rising-edge detector that turns a register bit into a one-cycle pulse. */
module EdgePulse {

  datatype Detector = Detector(reg1: bool, reg2: bool) {
    predicate Pulse() { reg1 && !reg2 }

    function Next(signal: bool): Detector { Detector(signal, reg1) }

    /** A rising edge is on its way: one cycle more until the pulse, or the pulse itself. */
    predicate Pending(signal: bool) { (signal && !reg1) || Pulse() }
  }

  const CLEAR := Detector(false, false)

  function Run(d: Detector, signal: seq<bool>): (d': Detector) {
    if signal == [] then d else Run(d, signal[..|signal| - 1]).Next(signal[|signal| - 1])
  }

  function Count(b: bool): nat { if b then 1 else 0 }

  /** Cycles in which the pulse is high, seen before each edge. */
  function Pulses(d: Detector, signal: seq<bool>): (n: nat) {
    if signal == [] then 0
    else Pulses(d, signal[..|signal| - 1]) + Count(Run(d, signal[..|signal| - 1]).Pulse())
  }

  /** Rising edges of the signal, which starts low. */
  function Rises(signal: seq<bool>): (n: nat) {
    if signal == [] then 0
    else
      var k := |signal| - 1;
      Rises(signal[..k]) + Count(signal[k] && (k == 0 || !signal[k - 1]))
  }

  /** Every rising edge makes exactly one pulse cycle, and nothing else does. */
  lemma {:induction false} OnePulsePerRise(signal: seq<bool>)
    ensures Pulses(CLEAR, signal) + Count(Run(CLEAR, signal).Pulse()) == Rises(signal)
    ensures Run(CLEAR, signal).reg1 == (signal != [] && signal[|signal| - 1])
  {
    if signal != [] {
      OnePulsePerRise(signal[..|signal| - 1]);
    }
  }

  class PulseOnPosedge {
    var reg1: bool
    var reg2: bool

    ghost function State(): Detector
      reads this
    {
      Detector(reg1, reg2)
    }

    constructor ()
      ensures State() == CLEAR
    {
      reg1, reg2 := false, false;
    }

    method Clock(signal: bool) returns (pulse: bool)
      modifies this
      ensures pulse == old(State()).Pulse()
      ensures State() == old(State()).Next(signal)
    {
      pulse := reg1 && !reg2;
      reg2 := reg1;
      reg1 := signal;
    }
  }
}
