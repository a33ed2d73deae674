/**
 From the send routine to the wire: the transmit path feeding the header remover. Whatever the timing,
 the packets that leave are the packets that were accepted, in order, each once.
 */
module TransmitDelivery {
  import opened Layout
  import opened Arithmetic
  import opened Stream
  import opened SlotFormat
  import R = HeaderRemover
  import T = TransmitPath
  import V = HeaderHandover

  /** The transmit path with the header remover on the engine's output. */
  datatype Chain = Chain(path: T.System, remover: R.Registers)

  datatype History = History(path: T.History, removed: R.History)

  /** One cycle; `idle` is what the stream shows while it is not valid. */
  datatype Input = Input(path: T.Input, idle: Beat, hdrReady: bool)

  ghost predicate LegalInput(i: Input) {
    T.LegalInput(i.path) && |i.idle.data| == |i.idle.keep| == R.WORD
  }

  predicate IsWord(b: Beat) { |b.data| == |b.keep| == R.WORD }

  /** The beat on the stream; what the engine delivers always has eight lanes. */
  function Seen(c: Chain, i: Input): Beat {
    if c.path.dma.out.valid && IsWord(c.path.dma.out.reg) then c.path.dma.out.reg else i.idle
  }

  /** The remover sees the engine's valid and data, and its ready is the engine's tready. */
  function RemoverInput(c: Chain, i: Input): R.Input {
    R.Input(c.path.dma.out.valid, Seen(c, i), i.path.tready, i.hdrReady)
  }

  function Next(base: nat, c: Chain, i: Input, h: T.History): Chain
    requires T.ValidSystem(c.path, h) && R.LegalInput(RemoverInput(c, i))
  {
    Chain(T.Next(base, c.path, i.path, h), R.Next(c.remover, RemoverInput(c, i)))
  }

  function Record(c: Chain, i: Input, h: History): History
    requires T.ValidSystem(c.path, h.path) && R.LegalInput(RemoverInput(c, i))
  {
    History(T.Record(c.path, i.path, h.path), R.Record(c.remover, RemoverInput(c, i), h.removed))
  }

  ghost predicate LegalRun(inputs: seq<Input>) {
    forall k :: 0 <= k < |inputs| ==> LegalInput(inputs[k])
  }

  const EMPTY := History(T.EMPTY, R.EMPTY)

  ghost predicate Reset(c: Chain) { T.Reset(c.path) && c.remover == R.RESET }

  ghost function Run(base: nat, start: Chain, inputs: seq<Input>): (r: (Chain, History))
    requires T.Base(base) && Reset(start) && LegalRun(inputs)
    ensures T.Sound(r.0.path, r.1.path)
  {
    if inputs == [] then (start, EMPTY)
    else
      var (c, h) := Run(base, start, inputs[..|inputs| - 1]);
      var i := inputs[|inputs| - 1];
      T.SoundStep(base, c.path, i.path, h.path);
      (Next(base, c, i, h.path), Record(c, i, h))
  }

  /** What the remover consumes is what the engine delivers. */
  ghost predicate Agrees(h: History) {
    h.path.dma.delivered <= |h.path.dma.pushed| && h.removed.consumed == h.path.dma.pushed[..h.path.dma.delivered]
  }

  lemma ConsumeStep(c: Chain, i: Input, h: History)
    requires T.ValidSystem(c.path, h.path) && c.path.dma.out.Represents(h.path.dma.pushed, h.path.dma.delivered)
    requires R.LegalInput(RemoverInput(c, i)) && Agrees(h)
    requires c.path.dma.out.valid ==> IsWord(c.path.dma.out.reg)
    ensures Agrees(Record(c, i, h))
  {
    T.DeliverStep(0, c.path, i.path, h.path);
  }

  ghost predicate Inv(base: nat, c: Chain, h: History) {
    T.Inv(base, c.path, h.path) && R.Inv(c.remover, h.removed) && Agrees(h)
  }

  lemma InvStep(base: nat, c: Chain, i: Input, h: History)
    requires T.Base(base) && LegalInput(i) && Inv(base, c, h)
    ensures T.ValidSystem(c.path, h.path) && R.LegalInput(RemoverInput(c, i))
    ensures Inv(base, Next(base, c, i, h.path), Record(c, i, h))
  {
    T.OutputBeat(base, c.path.dma, h.path.dma);
    T.InvStep(base, c.path, i.path, h.path);
    R.Step(c.remover, RemoverInput(c, i), h.removed);
    ConsumeStep(c, i, h);
  }

  lemma InvInit(base: nat, start: Chain)
    requires T.Base(base) && Reset(start)
    ensures Inv(base, start, EMPTY)
  {
    T.InvInit(base, start.path);
  }

  lemma {:induction false} RunKeepsInv(base: nat, start: Chain, inputs: seq<Input>)
    requires T.Base(base) && Reset(start) && LegalRun(inputs)
    ensures Inv(base, Run(base, start, inputs).0, Run(base, start, inputs).1)
  {
    if inputs == [] {
      InvInit(base, start);
    } else {
      var n := |inputs| - 1;
      RunKeepsInv(base, start, inputs[..n]);
      var (c, h) := Run(base, start, inputs[..n]);
      InvStep(base, c, inputs[n], h);
    }
  }

  /** The consumer takes every header before the first cycle behind its packet's last word is over. */
  ghost predicate OnTime(base: nat, start: Chain, inputs: seq<Input>)
    requires T.Base(base) && Reset(start) && LegalRun(inputs)
  {
    inputs == [] ||
    var n := |inputs| - 1;
    && OnTime(base, start, inputs[..n])
    && (V.Due(Run(base, start, inputs[..n]).0.remover) ==> inputs[n].hdrReady)
  }

  lemma {:induction false} HeadersAreRight(base: nat, start: Chain, inputs: seq<Input>)
    requires T.Base(base) && Reset(start) && LegalRun(inputs) && OnTime(base, start, inputs)
    ensures var (c, h) := Run(base, start, inputs);
            V.Shown(c.remover, h.removed) == h.removed.headers && (V.Due(c.remover) ==> c.remover.headerCount == 0)
  {
    if inputs != [] {
      var n := |inputs| - 1;
      HeadersAreRight(base, start, inputs[..n]);
      var (c, h) := Run(base, start, inputs[..n]);
      V.RightStep(c.remover, RemoverInput(c, inputs[n]), h.removed);
    }
  }

  ghost predicate AreSlots(slots: seq<seq<Byte>>) {
    forall k :: 0 <= k < |slots| ==> |slots[k]| == SLOT
  }

  /** The beats the slots make, one slot after the other. */
  function SlotStream(slots: seq<seq<Byte>>): (beats: seq<Beat>)
    requires AreSlots(slots)
    ensures |beats| == T.WORDS * |slots|
  {
    if slots == [] then [] else SlotStream(slots[..|slots| - 1]) + SlotBeats(slots[|slots| - 1])
  }

  lemma {:induction false} SlotStreamAt(slots: seq<seq<Byte>>, k: nat)
    requires AreSlots(slots) && k < T.WORDS * |slots|
    ensures SlotStream(slots)[k] ==
            Beat(T.Word(slots[k / T.WORDS], k % T.WORDS), Mask(8, 8), k % T.WORDS == T.WORDS - 1)
  {
    var n := |slots| - 1;
    if k < T.WORDS * n {
      SlotStreamAt(slots[..n], k);
      QuotientBound(k, T.WORDS, n);
    } else {
      QuotientIsUnique(k, T.WORDS, n, k - T.WORDS * n);
    }
  }

  lemma {:induction false} SlotStreamPrefix(slots: seq<seq<Byte>>, m: nat)
    requires AreSlots(slots) && m <= |slots|
    ensures SlotStream(slots[..m]) == SlotStream(slots)[..T.WORDS * m]
  {
    var n := |slots| - 1;
    if m == |slots| {
      assert slots[..m] == slots;
    } else {
      SlotStreamPrefix(slots[..n], m);
      assert slots[..n][..m] == slots[..m];
    }
  }

  lemma PrefixOfBoth(all: seq<Beat>, x: seq<Beat>, y: seq<Beat>, j: nat)
    requires |x + y| <= |all| && all[..|x + y|] == x + y && j <= |y|
    ensures all[..|x| + j] == x + y[..j]
  {
    assert all[..|x| + j] == all[..|x + y|][..|x| + j];
  }

  /** The first beats are whole slots and the beginning of the next. */
  lemma SlotStreamCut(slots: seq<seq<Byte>>, m: nat, j: nat)
    requires AreSlots(slots) && m < |slots| && j <= T.WORDS
    ensures SlotStream(slots)[..T.WORDS * m + j] == SlotStream(slots[..m]) + SlotBeats(slots[m])[..j]
  {
    SlotStreamPrefix(slots, m);
    SlotStreamPrefix(slots, m + 1);
    assert slots[..m + 1][..m] == slots[..m];
    PrefixOfBoth(SlotStream(slots), SlotStream(slots[..m]), SlotBeats(slots[m]), j);
  }

  /** The stream delivered is a prefix of the accepted slots. */
  lemma DeliveredSlots(base: nat, s: T.System, h: T.History)
    requires T.Base(base) && T.Inv(base, s, h)
    ensures AreSlots(h.accepted)
    ensures h.dma.delivered <= |h.dma.pushed| && h.dma.delivered <= T.WORDS * |h.accepted|
    ensures h.dma.pushed[..h.dma.delivered] == SlotStream(h.accepted)[..h.dma.delivered]
  {
    T.DeliveredWords(base, s, h);
    forall k | 0 <= k < h.dma.delivered
      ensures h.dma.pushed[k] == SlotStream(h.accepted)[k]
    {
      SlotStreamAt(h.accepted, k);
    }
  }

  // ---------------------------------------------------------------------------------------------
  // The remover on whole slots
  // ---------------------------------------------------------------------------------------------

  function SlotPackets(slots: seq<seq<Byte>>): (packets: seq<seq<Beat>>)
    requires AreSlots(slots)
    ensures |packets| == |slots|
  {
    seq(|slots|, k requires 0 <= k < |slots| => SlotBeats(slots[k]))
  }

  lemma CutOneMore(before: seq<Beat>, beats: seq<Beat>, j: nat, complete: seq<seq<Beat>>)
    requires j < |beats| && R.Cut(before + beats[..j]) == R.Packets(complete, beats[..j])
    ensures R.Cut(before + beats[..j + 1]) ==
            if j >= R.HEADER_WORDS && beats[j].last then R.Packets(complete + [beats[..j + 1]], [])
            else R.Packets(complete, beats[..j + 1])
  {
    R.CutAppend(before + beats[..j], beats[j]);
    assert beats[..j + 1] == beats[..j] + [beats[j]];
    assert before + beats[..j + 1] == before + beats[..j] + [beats[j]];
  }

  lemma {:induction false} CutSlot(before: seq<Beat>, slot: seq<Byte>, j: nat)
    requires R.Cut(before).open == [] && |slot| == SLOT && j < T.WORDS
    ensures R.Cut(before + SlotBeats(slot)[..j]) == R.Packets(R.Cut(before).complete, SlotBeats(slot)[..j])
  {
    if j == 0 {
      assert before + SlotBeats(slot)[..0] == before;
    } else {
      CutSlot(before, slot, j - 1);
      CutOneMore(before, SlotBeats(slot), j - 1, R.Cut(before).complete);
    }
  }

  lemma CutWholeSlot(before: seq<Beat>, slot: seq<Byte>)
    requires R.Cut(before).open == [] && |slot| == SLOT
    ensures R.Cut(before + SlotBeats(slot)) == R.Packets(R.Cut(before).complete + [SlotBeats(slot)], [])
  {
    CutSlot(before, slot, T.WORDS - 1);
    CutOneMore(before, SlotBeats(slot), T.WORDS - 1, R.Cut(before).complete);
    assert SlotBeats(slot)[..T.WORDS] == SlotBeats(slot);
  }

  lemma LastPacket(slots: seq<seq<Byte>>)
    requires slots != [] && AreSlots(slots)
    ensures var n := |slots| - 1;
            SlotPackets(slots) == SlotPackets(slots[..n]) + [SlotBeats(slots[n])]
  {
  }

  lemma {:induction false} CutSlots(slots: seq<seq<Byte>>)
    requires AreSlots(slots)
    ensures R.Cut(SlotStream(slots)) == R.Packets(SlotPackets(slots), [])
  {
    if slots != [] {
      var n := |slots| - 1;
      CutSlots(slots[..n]);
      CutWholeSlot(SlotStream(slots[..n]), slots[n]);
      LastPacket(slots);
    }
  }

  // ---------------------------------------------------------------------------------------------
  // Packets
  // ---------------------------------------------------------------------------------------------

  /** A packet the send routine can be given: it fits a slot, and its payload is at least one word. */
  ghost predicate Sendable(p: Packet) { InRange(p) && 8 <= |p.payload| <= MAX_PAYLOAD }

  ghost predicate Hold(slots: seq<seq<Byte>>, sent: seq<Packet>) {
    && |slots| == |sent|
    && forall j :: 0 <= j < |sent| ==> Sendable(sent[j]) && Holds(slots[j], sent[j])
  }

  /** The frames are the payloads of the first packets of the list. */
  ghost predicate PayloadsOf(frames: seq<seq<Byte>>, sent: seq<Packet>) {
    |frames| <= |sent| && forall j :: 0 <= j < |frames| ==> frames[j] == sent[j].payload
  }

  function HeaderOf(p: Packet): R.Header {
    R.Header(|p.payload|, p.sourceIp, p.sourcePort, p.destIp, p.destPort)
  }

  /** The headers are those of the first packets of the list. */
  ghost predicate HeadersOf(headers: seq<R.Header>, sent: seq<Packet>) {
    |headers| <= |sent| && forall j :: 0 <= j < |headers| ==> headers[j] == HeaderOf(sent[j])
  }

  /** These beats make the remover put out the packet. */
  ghost predicate ComesOut(beats: seq<Beat>, p: Packet) {
    && R.Words(beats) && |beats| >= R.HEADER_WORDS
    && R.HeaderOf(beats) == HeaderOf(p)
    && Split(R.Payload(beats)) == Frames([p.payload], [])
  }

  lemma SlotComesOut(slot: seq<Byte>, p: Packet)
    requires Holds(slot, p) && Sendable(p)
    ensures ComesOut(SlotBeats(slot), p)
  {
    RemoverReadsSlotIff(slot, p);
    assert p.payload[..|p.payload|] == p.payload;
  }

  ghost predicate ComeOut(packets: seq<seq<Beat>>, sent: seq<Packet>) {
    && |packets| <= |sent|
    && forall k :: 0 <= k < |packets| ==> ComesOut(packets[k], sent[k])
  }

  lemma SlotsComeOut(slots: seq<seq<Byte>>, sent: seq<Packet>)
    requires |slots| <= |sent| && AreSlots(slots)
    requires forall k :: 0 <= k < |slots| ==> Sendable(sent[k]) && Holds(slots[k], sent[k])
    ensures ComeOut(SlotPackets(slots), sent)
  {
    forall k | 0 <= k < |slots|
      ensures ComesOut(SlotPackets(slots)[k], sent[k])
    {
      SlotComesOut(slots[k], sent[k]);
    }
  }

  lemma HeadedPrefix(packets: seq<seq<Beat>>, n: nat)
    requires R.HeadedWords(packets) && n <= |packets|
    ensures R.HeadedWords(packets[..n])
  {
  }

  lemma {:induction false} WholeHeaders(packets: seq<seq<Beat>>, sent: seq<Packet>)
    requires R.HeadedWords(packets) && |packets| <= |sent|
    requires forall k :: 0 <= k < |packets| ==> R.HeaderOf(packets[k]) == HeaderOf(sent[k])
    ensures |R.Headers(packets)| == |packets| && HeadersOf(R.Headers(packets), sent)
  {
    if packets != [] {
      var n := |packets| - 1;
      HeadedPrefix(packets, n);
      WholeHeaders(packets[..n], sent);
    }
  }

  lemma NextPayload(packets: seq<seq<Beat>>, frame: seq<Byte>)
    requires packets != [] && R.HeadedWords(packets) && R.HeadedWords(packets[..|packets| - 1])
    requires Split(R.Payloads(packets[..|packets| - 1])).open == []
    requires Split(R.Payload(packets[|packets| - 1])) == Frames([frame], [])
    ensures Split(R.Payloads(packets)) == Frames(Split(R.Payloads(packets[..|packets| - 1])).complete + [frame], [])
  {
    SplitConcat(R.Payloads(packets[..|packets| - 1]), R.Payload(packets[|packets| - 1]));
  }

  lemma NextFrame(frames: seq<seq<Byte>>, sent: seq<Packet>, frame: seq<Byte>)
    requires PayloadsOf(frames, sent) && |frames| < |sent| && frame == sent[|frames|].payload
    ensures PayloadsOf(frames + [frame], sent)
  {
  }

  lemma {:induction false} WholePayloads(packets: seq<seq<Beat>>, sent: seq<Packet>)
    requires R.HeadedWords(packets) && |packets| <= |sent|
    requires forall k :: 0 <= k < |packets| ==> Split(R.Payload(packets[k])) == Frames([sent[k].payload], [])
    ensures Split(R.Payloads(packets)).open == []
    ensures |Split(R.Payloads(packets)).complete| == |packets| && PayloadsOf(Split(R.Payloads(packets)).complete, sent)
  {
    if packets != [] {
      var n := |packets| - 1;
      HeadedPrefix(packets, n);
      WholePayloads(packets[..n], sent);
      NextPayload(packets, sent[n].payload);
      NextFrame(Split(R.Payloads(packets[..n])).complete, sent, sent[n].payload);
    }
  }

  /**
   The beginning of a slot gives the packet's header once its five words are through, and its payload at most once.
   */
  lemma SlotInProgress(slot: seq<Byte>, p: Packet, j: nat)
    requires Holds(slot, p) && Sendable(p) && j <= T.WORDS
    ensures R.Words(SlotBeats(slot)[..j])
    ensures R.HEADER_WORDS <= j ==> R.HeaderOf(SlotBeats(slot)[..j]) == HeaderOf(p)
    ensures Split(R.Payload(SlotBeats(slot)[..j])).complete in {[], [p.payload]}
  {
    var beats := SlotBeats(slot);
    HeaderIsFound(slot, p);
    if R.HEADER_WORDS <= j {
      SlotWords(slot);
      var body := beats[R.HEADER_WORDS..];
      assert beats[..j][R.HEADER_WORDS..] == body[..j - R.HEADER_WORDS];
      DataOfSlot(slot, SLOT / 8);
      assert beats[R.HEADER_WORDS..SLOT / 8] == body;
      assert R.Data(body) == slot[HEADER_BYTES..];
      PayloadInSlot(slot, p);
      R.TrimUpTo(|p.payload|, body, j - R.HEADER_WORDS);
      assert p.payload[..|p.payload|] == p.payload;
    }
  }

  /** The images handed to the send routine are those of the packets `sent`. */
  ghost predicate WereSent(images: seq<seq<Byte>>, sent: seq<Packet>) {
    && |sent| == |images|
    && forall j :: 0 <= j < |sent| ==> Sendable(sent[j]) && images[j] == Image(sent[j])
  }

  /** The accepted slots hold the packets whose images the send routine was given. */
  lemma AcceptedSlotsHold(memory: seq<Byte>, accepted: seq<seq<Byte>>, images: seq<seq<Byte>>, pops: nat,
                          sent: seq<Packet>)
    requires |memory| == BUFFER && T.MemoryInv(memory, accepted, images, pops) && WereSent(images, sent)
    ensures Hold(accepted, sent)
  {
    forall j | 0 <= j < |sent|
      ensures Holds(accepted[j], sent[j])
    {
      ImageIsHeld(accepted[j], sent[j]);
    }
  }

  /**
   The transmit path is an exactly-once FIFO: in every interleaving of driver, controller, engine,
   slave and remover, the frames that have left are those of the first packets accepted, in order, at
   most one ahead of the slots that have been read to their end. So are the headers handed over, with
   the one on show, when their consumer takes them on time.
   */
  lemma DeliveryIsFifo(base: nat, start: Chain, inputs: seq<Input>, sent: seq<Packet>)
    requires T.Base(base) && Reset(start) && LegalRun(inputs)
    requires WereSent(Run(base, start, inputs).1.path.images, sent)
    ensures var (c, h) := Run(base, start, inputs);
            var frames, headers := Split(h.removed.forwarded).complete, V.Shown(c.remover, h.removed);
            var read := h.path.dma.delivered / T.WORDS;
            && PayloadsOf(frames, sent) && read <= |frames| <= read + 1
            && (OnTime(base, start, inputs) ==>
                  HeadersOf(h.removed.taken, sent) && HeadersOf(headers, sent) && read <= |headers| <= read + 1)
  {
    var (c, h) := Run(base, start, inputs);
    RunKeepsInv(base, start, inputs);
    AcceptedSlotsHold(c.path.memory, h.path.accepted, h.path.images, h.path.pops, sent);
    DeliveredSlots(base, c.path, h.path);
    CutIsAt(h.path.accepted, h.path.dma.delivered);
    RemovedPrefix(h.path.accepted, sent, h.path.dma.delivered, h.removed);
    if OnTime(base, start, inputs) {
      HeadersAreRight(base, start, inputs);
      TakenAreFirst(c.remover, h.removed, sent);
    }
  }

  lemma TakenAreFirst(r: R.Registers, out: R.History, sent: seq<Packet>)
    requires HeadersOf(V.Shown(r, out), sent)
    ensures HeadersOf(out.taken, sent)
  {
    var shown := V.Shown(r, out);
    assert forall j :: 0 <= j < |out.taken| ==> out.taken[j] == shown[j];
  }

  lemma FramesOfBoth(x: seq<Beat>, y: seq<Beat>, sent: seq<Packet>, m: nat)
    requires Split(x).open == [] && |Split(x).complete| == m < |sent| && PayloadsOf(Split(x).complete, sent)
    requires Split(y).complete in {[], [sent[m].payload]}
    ensures PayloadsOf(Split(x + y).complete, sent) && m <= |Split(x + y).complete| <= m + 1
  {
    SplitConcat(x, y);
    if Split(y).complete != [] {
      NextFrame(Split(x).complete, sent, sent[m].payload);
    }
  }

  lemma HeadersOfBoth(x: seq<R.Header>, y: seq<R.Header>, sent: seq<Packet>)
    requires |x| < |sent| && HeadersOf(x, sent) && y in {[], [HeaderOf(sent[|x|])]}
    ensures HeadersOf(x + y, sent) && |x| <= |x + y| <= |x| + 1
  {
  }

  /** What the remover puts out for whole packets and the beginning of the next. */
  lemma RemovedPackets(packets: seq<seq<Beat>>, open: seq<Beat>, sent: seq<Packet>, out: R.History)
    requires |packets| < |sent| && ComeOut(packets, sent)
    requires R.Words(open) && (R.HEADER_WORDS <= |open| ==> R.HeaderOf(open) == HeaderOf(sent[|packets|]))
    requires Split(R.Payload(open)).complete in {[], [sent[|packets|].payload]}
    requires R.HeadedWords(packets) && R.OutputInv(out, R.Packets(packets, open))
    ensures PayloadsOf(Split(out.forwarded).complete, sent)
    ensures HeadersOf(out.headers, sent)
    ensures |packets| <= |Split(out.forwarded).complete| <= |packets| + 1
    ensures |packets| <= |out.headers| <= |packets| + 1
  {
    WholeHeaders(packets, sent);
    WholePayloads(packets, sent);
    FramesOfBoth(R.Payloads(packets), R.Payload(open), sent, |packets|);
    HeadersOfBoth(R.Headers(packets), if R.HEADER_WORDS <= |open| then [HeaderOf(sent[|packets|])] else [], sent);
  }

  lemma RemovedWhole(packets: seq<seq<Beat>>, sent: seq<Packet>, out: R.History)
    requires ComeOut(packets, sent)
    requires R.HeadedWords(packets) && R.OutputInv(out, R.Packets(packets, []))
    ensures PayloadsOf(Split(out.forwarded).complete, sent) && |Split(out.forwarded).complete| == |packets|
    ensures HeadersOf(out.headers, sent) && |out.headers| == |packets|
  {
    WholeHeaders(packets, sent);
    WholePayloads(packets, sent);
    assert R.Payloads(packets) + R.Payload([]) == R.Payloads(packets);
  }

  lemma ConsumedCut(slots: seq<seq<Byte>>, m: nat, j: nat)
    requires AreSlots(slots) && m < |slots| && j < T.WORDS
    ensures R.Cut(SlotStream(slots)[..T.WORDS * m + j]) == R.Packets(SlotPackets(slots[..m]), SlotBeats(slots[m])[..j])
  {
    SlotStreamCut(slots, m, j);
    CutSlots(slots[..m]);
    CutSlot(SlotStream(slots[..m]), slots[m], j);
  }

  /** What the remover has put out: frames and headers of the first packets, at most one ahead of `m` slots. */
  ghost predicate Removed(out: R.History, sent: seq<Packet>, m: nat) {
    && PayloadsOf(Split(out.forwarded).complete, sent) && HeadersOf(out.headers, sent)
    && m <= |Split(out.forwarded).complete| <= m + 1
    && m <= |out.headers| <= m + 1
  }

  /** The packets in the first `n` beats of a stream of slots. */
  ghost function CutAt(slots: seq<seq<Byte>>, n: nat): (p: R.Packets)
    requires AreSlots(slots) && n <= T.WORDS * |slots|
  {
    var m, j := n / T.WORDS, n % T.WORDS;
    if m < |slots| then R.Packets(SlotPackets(slots[..m]), SlotBeats(slots[m])[..j])
    else R.Packets(SlotPackets(slots), [])
  }

  lemma CutIsAt(slots: seq<seq<Byte>>, n: nat)
    requires AreSlots(slots) && n <= T.WORDS * |slots|
    ensures R.Cut(SlotStream(slots)[..n]) == CutAt(slots, n)
  {
    if n / T.WORDS < |slots| {
      ConsumedCut(slots, n / T.WORDS, n % T.WORDS);
    } else {
      assert SlotStream(slots)[..n] == SlotStream(slots);
      CutSlots(slots);
    }
  }

  /** The remover's output on the first `n` beats of a stream of slots. */
  lemma RemovedPrefix(slots: seq<seq<Byte>>, sent: seq<Packet>, n: nat, out: R.History)
    requires Hold(slots, sent) && AreSlots(slots) && n <= T.WORDS * |slots|
    requires R.WordPackets(CutAt(slots, n)) && R.OutputInv(out, CutAt(slots, n))
    ensures Removed(out, sent, n / T.WORDS)
  {
    if n / T.WORDS < |slots| {
      RemovedInSlot(slots, sent, n / T.WORDS, n % T.WORDS, out);
    } else {
      RemovedAll(slots, sent, out);
    }
  }

  lemma RemovedInSlot(slots: seq<seq<Byte>>, sent: seq<Packet>, m: nat, j: nat, out: R.History)
    requires Hold(slots, sent) && m < |slots| && j < T.WORDS
    requires AreSlots(slots)
    requires R.HeadedWords(SlotPackets(slots[..m])) && R.Words(SlotBeats(slots[m])[..j])
    requires R.OutputInv(out, R.Packets(SlotPackets(slots[..m]), SlotBeats(slots[m])[..j]))
    ensures Removed(out, sent, m)
  {
    SlotsComeOut(slots[..m], sent);
    SlotInProgress(slots[m], sent[m], j);
    RemovedPackets(SlotPackets(slots[..m]), SlotBeats(slots[m])[..j], sent, out);
  }

  lemma RemovedAll(slots: seq<seq<Byte>>, sent: seq<Packet>, out: R.History)
    requires Hold(slots, sent)
    requires AreSlots(slots)
    requires R.HeadedWords(SlotPackets(slots)) && R.OutputInv(out, R.Packets(SlotPackets(slots), []))
    ensures PayloadsOf(Split(out.forwarded).complete, sent) && |Split(out.forwarded).complete| == |slots|
    ensures HeadersOf(out.headers, sent) && |out.headers| == |slots|
  {
    SlotsComeOut(slots, sent);
    RemovedWhole(SlotPackets(slots), sent, out);
  }
}
