/**
 The port filter, cycle by cycle: a packet is forwarded when its destination port is in range and open, else
 discarded.
 */
module PortFilter {
  import opened Layout
  import opened Options
  import opened Stream
  import opened AddressMap

  datatype State = Idle | CheckPort | Forward | Discard

  datatype Registers = Registers(state: State, select: int)

  /** The register inputs of the test. */
  datatype Config = Config(min: Port, max: Port, open: seq<bool>) {
    ghost predicate Valid() { |open| == PORTS }
  }

  /** One cycle: the header channel, the payload stream, and whether the output stage is ready. */
  datatype Input = Input(config: Config, hdrValid: bool, destPort: Port, tvalid: bool, beat: Beat, ready: bool)

  /** valid_udp_port. */
  predicate Admits(c: Config, port: Port)
    requires c.Valid()
  {
    InRange(c.min, c.max, port) && c.open[HardwareBuffer(c.min, port)]
  }

  /** s_axis_payload_tready: in the idle state the stream is not held back. */
  predicate Consumes(r: Registers, i: Input) {
    i.tvalid &&
    match r.state
    case Idle => i.ready
    case CheckPort => false
    case Forward => i.ready
    case Discard => true
  }

  function Forwards(r: Registers, i: Input): Option<Beat> {
    if r.state.Forward? && i.tvalid && i.ready then Some(i.beat) else None
  }

  function Next(r: Registers, i: Input): Registers
    requires i.config.Valid()
  {
    Registers(
      match r.state
      case Idle => if i.hdrValid then CheckPort else Idle
      case CheckPort => if Admits(i.config, i.destPort) then Forward else Discard
      case _ => if Consumes(r, i) && i.beat.last then Idle else r.state,
      if r.state.CheckPort? then HardwareBuffer(i.config.min, i.destPort) else r.select)
  }

  /** Decisions taken; beats consumed, those of them consumed behind a decision, and those forwarded. */
  datatype History = History(decisions: seq<bool>, consumed: seq<Beat>, kept: seq<Beat>, forwarded: seq<Beat>)

  function Record(r: Registers, i: Input, h: History): History
    requires i.config.Valid()
  {
    History(
      if r.state.CheckPort? then h.decisions + [Admits(i.config, i.destPort)] else h.decisions,
      if Consumes(r, i) then h.consumed + [i.beat] else h.consumed,
      if Consumes(r, i) && !r.state.Idle? then h.kept + [i.beat] else h.kept,
      h.forwarded + Optional(Forwards(r, i)))
  }

  const EMPTY := History([], [], [], [])

  const RESET := Registers(Idle, 0)

  /** The frames that were decided to be forwarded, whole. */
  function Selected(decisions: seq<bool>, frames: seq<seq<Beat>>): (beats: seq<Beat>)
    requires |frames| <= |decisions|
  {
    if frames == [] then []
    else
      var n := |frames| - 1;
      Selected(decisions, frames[..n]) + if decisions[n] then frames[n] else []
  }

  lemma {:induction false} SelectedIgnoresLater(decisions: seq<bool>, d: bool, frames: seq<seq<Beat>>)
    requires |frames| <= |decisions|
    ensures Selected(decisions + [d], frames) == Selected(decisions, frames)
  {
    if frames != [] {
      SelectedIgnoresLater(decisions, d, frames[..|frames| - 1]);
    }
  }

  lemma SelectedAppend(decisions: seq<bool>, frames: seq<seq<Beat>>, frame: seq<Beat>)
    requires |frames| < |decisions|
    ensures Selected(decisions, frames + [frame]) ==
            Selected(decisions, frames) + if decisions[|frames|] then frame else []
  {
    assert (frames + [frame])[..|frames|] == frames;
  }

  /** The decisions and the frames consumed behind them go together. */
  ghost predicate Inv(r: Registers, h: History) {
    var f := CutFrames(h.kept);
    var n := |f.complete|;
    && (r.state.Idle? || r.state.CheckPort? ==> |h.decisions| == n && f.open == [])
    && (r.state.Forward? || r.state.Discard? ==> |h.decisions| == n + 1 && h.decisions[n] == r.state.Forward?)
    && h.forwarded == Selected(h.decisions, f.complete) + if r.state.Forward? then f.open else []
  }

  lemma ConsumeStep(r: Registers, i: Input, h: History)
    requires i.config.Valid() && Inv(r, h) && Consumes(r, i) && !r.state.Idle?
    ensures Inv(Next(r, i), Record(r, i, h))
  {
    var f := CutFrames(h.kept);
    CutFramesAppend(h.kept, i.beat);
    var before := Selected(h.decisions, f.complete);
    assert r.state.Forward? ==> before + f.open + [i.beat] == before + (f.open + [i.beat]);
    if i.beat.last {
      SelectedAppend(h.decisions, f.complete, f.open + [i.beat]);
    }
  }

  lemma Step(r: Registers, i: Input, h: History)
    requires i.config.Valid() && Inv(r, h)
    ensures Inv(Next(r, i), Record(r, i, h))
  {
    assert h.forwarded + [] == h.forwarded;
    if r.state.CheckPort? {
      SelectedIgnoresLater(h.decisions, Admits(i.config, i.destPort), CutFrames(h.kept).complete);
    } else if Consumes(r, i) && !r.state.Idle? {
      ConsumeStep(r, i, h);
    }
  }

  ghost predicate LegalRun(inputs: seq<Input>) {
    forall k :: 0 <= k < |inputs| ==> inputs[k].config.Valid()
  }

  ghost function Run(inputs: seq<Input>): (r: (Registers, History))
    requires LegalRun(inputs)
  {
    if inputs == [] then (RESET, EMPTY)
    else
      var (r, h) := Run(inputs[..|inputs| - 1]);
      var i := inputs[|inputs| - 1];
      (Next(r, i), Record(r, i, h))
  }

  lemma {:induction false} RunKeepsInv(inputs: seq<Input>)
    requires LegalRun(inputs)
    ensures Inv(Run(inputs).0, Run(inputs).1)
  {
    if inputs != [] {
      RunKeepsInv(inputs[..|inputs| - 1]);
      var (r, h) := Run(inputs[..|inputs| - 1]);
      Step(r, inputs[|inputs| - 1], h);
    }
  }

  /**
   In every run each frame behind a decision goes where the decision on its own header sends it:
   forwarded whole and in order, or dropped whole.
   */
  lemma FilterIsPerPacket(inputs: seq<Input>)
    requires LegalRun(inputs)
    ensures var (r, h) := Run(inputs);
            var f := CutFrames(h.kept);
            && |f.complete| <= |h.decisions| <= |f.complete| + 1
            && h.forwarded == Selected(h.decisions, f.complete) + if r.state.Forward? then f.open else []
  {
    RunKeepsInv(inputs);
  }

  /** While the filter waits for a header, no payload beat is offered to a ready output. */
  ghost predicate HeadersFirst(inputs: seq<Input>)
    requires LegalRun(inputs)
  {
    inputs == [] ||
    var n := |inputs| - 1;
    HeadersFirst(inputs[..n]) && (Run(inputs[..n]).0.state.Idle? ==> !(inputs[n].tvalid && inputs[n].ready))
  }

  /**
   No beat of the stream is lost without a decision, so that the frames above are the frames of the
   stream, exactly when headers come first; a beat in the very cycle that shows the header is too early.
   */
  lemma {:induction false} NothingIsLostIff(inputs: seq<Input>)
    requires LegalRun(inputs)
    ensures var h := Run(inputs).1;
            && |h.kept| <= |h.consumed|
            && (HeadersFirst(inputs) <==> h.kept == h.consumed)
            && (HeadersFirst(inputs) <==> |h.kept| == |h.consumed|)
  {
    if inputs != [] {
      NothingIsLostIff(inputs[..|inputs| - 1]);
    }
  }

  /** While a packet is forwarded, the selected buffer is the one of its port, whose socket was open. */
  lemma SelectedBufferIsOpen(r: Registers, i: Input)
    requires i.config.Valid() && Accepts(i.config.min, i.config.max) && r.state.CheckPort?
    ensures var r' := Next(r, i);
            r'.state.Forward? <==>
            InRange(i.config.min, i.config.max, i.destPort) && i.config.open[i.destPort - i.config.min]
            && r'.select == DriverBuffer(i.config.min, i.destPort)
  {
    if InRange(i.config.min, i.config.max, i.destPort) {
      BuffersAgree(i.config.min, i.config.max, i.destPort);
    }
  }
}
