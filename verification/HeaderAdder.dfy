/** The header adder, cycle by cycle: five header words in front of every payload frame. */
module HeaderAdder {
  import opened Options
  import opened Stream
  import opened LittleEndian

  const HEADER_WORDS := 5
  const WORD := 8
  const UDP_OVERHEAD := 8

  datatype UdpHeader = UdpHeader(sourceIp: nat, sourcePort: nat, destIp: nat, destPort: nat, udpLength: nat)

  datatype State = Idle | ForwardHeader | ForwardPayload

  datatype Registers = Registers(state: State, count: nat)

  const RESET := Registers(Idle, 0)

  /** One cycle: header inputs, the payload stream, and whether the output stage is ready. */
  datatype Input = Input(validPort: bool, hdr: UdpHeader, tvalid: bool, beat: Beat, ready: bool)

  /** The word that goes out for a header count; the length drops the UDP overhead, in 32-bit arithmetic. */
  function HeaderWord(h: UdpHeader, count: nat): (x: nat) {
    match count
    case 0 => (h.udpLength - UDP_OVERHEAD) % 0x1_0000_0000
    case 1 => h.sourceIp
    case 2 => h.sourcePort
    case 3 => h.destIp
    case 4 => h.destPort
    case _ => 0
  }

  function WordBeat(x: nat): (b: Beat) { Beat(Encode(x, WORD), Mask(WORD, WORD), false) }

  /** hdr_ready is the output stage's ready while idle. */
  predicate Starts(r: Registers, i: Input) { r.state.Idle? && i.ready && i.validPort }

  predicate Consumes(r: Registers, i: Input) { r.state.ForwardPayload? && i.ready && i.tvalid }

  function Emits(r: Registers, i: Input): Option<Beat> {
    if r.state.ForwardHeader? && i.ready then Some(WordBeat(HeaderWord(i.hdr, r.count)))
    else if Consumes(r, i) then Some(i.beat)
    else None
  }

  function Next(r: Registers, i: Input): Registers {
    Registers(
      match r.state
      case Idle => if Starts(r, i) then ForwardHeader else Idle
      case ForwardHeader => if r.count == HEADER_WORDS - 1 && i.ready then ForwardPayload else ForwardHeader
      case ForwardPayload => if Consumes(r, i) && i.beat.last then Idle else ForwardPayload,
      if !r.state.ForwardHeader? then 0 else if i.ready then r.count + 1 else r.count)
  }

  // ---------------------------------------------------------------------------------------------
  // What the machine is for, on whole frames
  // ---------------------------------------------------------------------------------------------

  /** The words of a header whose inputs stay the same. */
  function HeaderBeats(h: UdpHeader): (beats: seq<Beat>) {
    seq(HEADER_WORDS, k requires 0 <= k < HEADER_WORDS => WordBeat(HeaderWord(h, k)))
  }

  /** The words that go out when the header inputs are `given[k]` in the cycle of the k-th word. */
  function Spelt(given: seq<UdpHeader>): (beats: seq<Beat>)
    ensures |beats| == |given|
  {
    seq(|given|, k requires 0 <= k < |given| => WordBeat(HeaderWord(given[k], k)))
  }

  /** Every frame behind its header words. */
  function Messages(given: seq<seq<UdpHeader>>, frames: seq<seq<Beat>>): (beats: seq<Beat>)
    requires |frames| <= |given|
  {
    if frames == [] then []
    else
      var n := |frames| - 1;
      Messages(given, frames[..n]) + Spelt(given[n]) + frames[n]
  }

  /** Headers accepted, the header inputs in the cycles of their words, beats consumed and emitted. */
  datatype History = History(headers: seq<UdpHeader>, given: seq<seq<UdpHeader>>, consumed: seq<Beat>,
                             emitted: seq<Beat>)

  const EMPTY := History([], [], [], [])

  function Record(r: Registers, i: Input, h: History): (h': History) {
    var n := |h.given|;
    History(
      if Starts(r, i) then h.headers + [i.hdr] else h.headers,
      if Starts(r, i) then h.given + [[]]
      else if r.state.ForwardHeader? && i.ready && 0 < n then h.given[n - 1 := h.given[n - 1] + [i.hdr]]
      else h.given,
      if Consumes(r, i) then h.consumed + [i.beat] else h.consumed,
      h.emitted + Optional(Emits(r, i)))
  }

  /** Header words that are out. */
  function WordsOut(r: Registers): nat { if r.state.ForwardHeader? then r.count else HEADER_WORDS }

  ghost predicate Inv(r: Registers, h: History) {
    var f := CutFrames(h.consumed);
    var n := |f.complete|;
    && |h.given| == |h.headers| == n + (if r.state.Idle? then 0 else 1)
    && (forall k :: 0 <= k < n ==> |h.given[k]| == HEADER_WORDS)
    && (!r.state.Idle? ==> |h.given[n]| == WordsOut(r))
    && (!r.state.ForwardPayload? ==> f.open == [])
    && (r.state.Idle? ==> r.count == 0)
    && (r.state.ForwardHeader? ==> r.count < HEADER_WORDS)
    && h.emitted == Messages(h.given, f.complete) + if r.state.Idle? then [] else Spelt(h.given[n]) + f.open
  }

  lemma {:induction false} MessagesIgnoreLater(given: seq<seq<UdpHeader>>, given': seq<seq<UdpHeader>>,
                                               frames: seq<seq<Beat>>)
    requires |frames| <= |given| && |frames| <= |given'|
    requires forall k :: 0 <= k < |frames| ==> given'[k] == given[k]
    ensures Messages(given', frames) == Messages(given, frames)
  {
    if frames != [] {
      MessagesIgnoreLater(given, given', frames[..|frames| - 1]);
    }
  }

  lemma MessagesAppend(given: seq<seq<UdpHeader>>, frames: seq<seq<Beat>>, frame: seq<Beat>)
    requires |frames| < |given|
    ensures Messages(given, frames + [frame]) == Messages(given, frames) + Spelt(given[|frames|]) + frame
  {
    assert (frames + [frame])[..|frames|] == frames;
  }

  lemma PayloadStep(r: Registers, i: Input, h: History)
    requires Inv(r, h) && Consumes(r, i)
    ensures Inv(Next(r, i), Record(r, i, h))
  {
    var f := CutFrames(h.consumed);
    var before, words := Messages(h.given, f.complete), Spelt(h.given[|f.complete|]);
    CutFramesAppend(h.consumed, i.beat);
    assert before + (words + f.open) + [i.beat] == before + (words + (f.open + [i.beat]));
    if i.beat.last {
      MessagesAppend(h.given, f.complete, f.open + [i.beat]);
      assert before + (words + (f.open + [i.beat])) == before + words + (f.open + [i.beat]) + [];
    }
  }

  lemma HeaderStep(r: Registers, i: Input, h: History)
    requires Inv(r, h) && r.state.ForwardHeader? && i.ready
    ensures Inv(Next(r, i), Record(r, i, h))
  {
    var f := CutFrames(h.consumed);
    var n := |f.complete|;
    var given' := Record(r, i, h).given;
    var before := Messages(h.given, f.complete);
    MessagesIgnoreLater(h.given, given', f.complete);
    assert Spelt(given'[n]) == Spelt(h.given[n]) + [WordBeat(HeaderWord(i.hdr, r.count))];
    assert before + (Spelt(h.given[n]) + []) + [WordBeat(HeaderWord(i.hdr, r.count))]
        == before + (Spelt(given'[n]) + []);
  }

  lemma StartStep(r: Registers, i: Input, h: History)
    requires Inv(r, h) && Starts(r, i)
    ensures Inv(Next(r, i), Record(r, i, h))
  {
    var f := CutFrames(h.consumed);
    MessagesIgnoreLater(h.given, h.given + [[]], f.complete);
    assert Spelt([]) + [] == [];
    assert h.emitted + [] == h.emitted;
  }

  lemma Step(r: Registers, i: Input, h: History)
    requires Inv(r, h)
    ensures Inv(Next(r, i), Record(r, i, h))
  {
    if Consumes(r, i) {
      PayloadStep(r, i, h);
    } else if r.state.ForwardHeader? && i.ready {
      HeaderStep(r, i, h);
    } else if Starts(r, i) {
      StartStep(r, i, h);
    } else {
      assert h.emitted + [] == h.emitted;
    }
  }

  /** The registers and history after some cycles. */
  ghost function Run(inputs: seq<Input>): (r: (Registers, History)) {
    if inputs == [] then (RESET, EMPTY)
    else
      var (r, h) := Run(inputs[..|inputs| - 1]);
      var i := inputs[|inputs| - 1];
      (Next(r, i), Record(r, i, h))
  }

  lemma {:induction false} RunKeepsInv(inputs: seq<Input>)
    ensures Inv(Run(inputs).0, Run(inputs).1)
  {
    if inputs != [] {
      var n := |inputs| - 1;
      RunKeepsInv(inputs[..n]);
      var (r, h) := Run(inputs[..n]);
      Step(r, inputs[n], h);
    }
  }

  /**
   For every valid/ready pattern and any header inputs: the output is every consumed frame behind five
   words, each spelling its field of the header inputs of its cycle.
   */
  lemma AdderRefinesFunction(inputs: seq<Input>)
    ensures var (r, h) := Run(inputs);
            var f := CutFrames(h.consumed);
            && |f.complete| <= |h.given| == |h.headers| <= |f.complete| + 1
            && (forall k :: 0 <= k < |f.complete| ==> |h.given[k]| == HEADER_WORDS)
            && Messages(h.given, f.complete) <= h.emitted
            && (r.state.Idle? ==> f.open == [] && h.emitted == Messages(h.given, f.complete))
  {
    RunKeepsInv(inputs);
  }

  /** While the words of a header go out, the header inputs are still those that were accepted. */
  ghost predicate Steady(inputs: seq<Input>) {
    inputs == [] ||
    var n := |inputs| - 1;
    var (r, h) := Run(inputs[..n]);
    && Steady(inputs[..n])
    && (r.state.ForwardHeader? && h.headers != [] ==> inputs[n].hdr == h.headers[|h.headers| - 1])
  }

  /** What has been spelt of each header is its own. */
  ghost predicate Own(h: History) {
    |h.given| == |h.headers| &&
    forall k :: 0 <= k < |h.given| ==> forall j :: 0 <= j < |h.given[k]| ==> h.given[k][j] == h.headers[k]
  }

  lemma {:induction false} SteadyIsOwn(inputs: seq<Input>)
    requires Steady(inputs)
    ensures Own(Run(inputs).1)
  {
    if inputs != [] {
      SteadyIsOwn(inputs[..|inputs| - 1]);
    }
  }

  /** Then every frame stands behind the words of the header accepted for it. */
  lemma SteadyHeaders(inputs: seq<Input>, k: nat)
    requires Steady(inputs) && k < |CutFrames(Run(inputs).1.consumed).complete|
    ensures var h := Run(inputs).1;
            k < |h.given| == |h.headers| && Spelt(h.given[k]) == HeaderBeats(h.headers[k])
  {
    RunKeepsInv(inputs);
    SteadyIsOwn(inputs);
  }
}
