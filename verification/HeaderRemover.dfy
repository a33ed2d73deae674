/**
 The header remover, cycle by cycle: it takes five header words off a stream, presents them as a
 header, and forwards as much of the rest as the header's length field says.
 */
module HeaderRemover {
  import opened Options
  import opened Stream
  import opened LittleEndian
  import opened Arithmetic

  const HEADER_WORDS := 5
  const WORD := 8
  const COUNTER := 512

  datatype Header = Header(length: nat, sourceIp: nat, sourcePort: nat, destIp: nat, destPort: nat)

  datatype Registers = Registers(inPayload: bool, headerCount: nat, count: nat, hdr: Header, hdrValid: bool)

  /** One cycle: the stream input, and whether the output stage and the header consumer are ready. */
  datatype Input = Input(tvalid: bool, beat: Beat, ready: bool, hdrReady: bool)

  ghost predicate LegalInput(i: Input) { |i.beat.data| == |i.beat.keep| == WORD }

  /** s_axis_consumed: the input is accepted exactly when the output stage is ready. */
  predicate Consumes(i: Input) { i.tvalid && i.ready }

  /** Unsigned 32-bit arithmetic of the comparisons. */
  function Unsigned(x: int): (u: nat) { x % 0x1_0000_0000 }

  /** transf_last in the payload state. */
  predicate IsLast(length: nat, count: nat) { !(count * WORD < Unsigned(length - WORD)) }

  /** transf_done in the payload state. */
  predicate IsDone(length: nat, count: nat) { !(count * WORD < length) }

  function Keep(length: nat, count: nat, keep: seq<bool>): (k: seq<bool>) {
    if count <= Unsigned(length / WORD - 1) then keep
    else Mask(WORD, if count * WORD <= length then length - count * WORD else WORD)
  }

  /** The beat forwarded for the payload beat with the given count. */
  function Forwarded(length: nat, count: nat, b: Beat): (o: Option<Beat>) {
    if IsDone(length, count) then None
    else Some(Beat(b.data, Keep(length, count, b.keep), b.last || IsLast(length, count)))
  }

  function Forwards(r: Registers, i: Input): Option<Beat> {
    if r.inPayload && Consumes(i) then Forwarded(r.hdr.length, r.count, i.beat) else None
  }

  function Low(b: Beat, k: nat): nat
    requires k <= |b.data|
  {
    Decode(b.data[..k])
  }

  /** The header registers sample their word in every cycle their turn lasts. */
  function Sample(r: Registers, b: Beat): (h: Header)
    requires |b.data| == WORD
  {
    if r.inPayload then r.hdr
    else if r.headerCount == 0 then r.hdr.(length := Low(b, 2))
    else if r.headerCount == 1 then r.hdr.(sourceIp := Low(b, 4))
    else if r.headerCount == 2 then r.hdr.(sourcePort := Low(b, 2))
    else if r.headerCount == 3 then r.hdr.(destIp := Low(b, 4))
    else if r.headerCount == 4 then r.hdr.(destPort := Low(b, 2))
    else r.hdr
  }

  predicate HeaderEnds(r: Registers, i: Input) {
    !r.inPayload && r.headerCount == HEADER_WORDS - 1 && Consumes(i)
  }

  function Next(r: Registers, i: Input): (r': Registers)
    requires LegalInput(i)
  {
    Registers(
      if r.inPayload then !(Consumes(i) && i.beat.last) else HeaderEnds(r, i),
      if r.inPayload then 0 else if Consumes(i) then r.headerCount + 1 else r.headerCount,
      if !r.inPayload then 0 else if Consumes(i) then (r.count + 1) % COUNTER else r.count,
      Sample(r, i.beat),
      if HeaderEnds(r, i) then true else r.hdrValid && !i.hdrReady)
  }

  // ---------------------------------------------------------------------------------------------
  // What the machine is for, on whole packets
  // ---------------------------------------------------------------------------------------------

  /** A slot packet ends with the first tlast behind its five header words. */
  datatype Packets = Packets(complete: seq<seq<Beat>>, open: seq<Beat>)

  function Cut(beats: seq<Beat>): (p: Packets) {
    if beats == [] then Packets([], [])
    else
      var p := Cut(beats[..|beats| - 1]);
      var b := beats[|beats| - 1];
      if |p.open| >= HEADER_WORDS && b.last then Packets(p.complete + [p.open + [b]], [])
      else Packets(p.complete, p.open + [b])
  }

  ghost predicate Words(beats: seq<Beat>) {
    forall k :: 0 <= k < |beats| ==> |beats[k].data| == |beats[k].keep| == WORD
  }

  /** The header that the first five words spell. */
  function HeaderOf(packet: seq<Beat>): (h: Header)
    requires |packet| >= HEADER_WORDS && Words(packet)
  {
    Header(Low(packet[0], 2), Low(packet[1], 4), Low(packet[2], 2), Low(packet[3], 4), Low(packet[4], 2))
  }

  /** What is forwarded of the words behind a header. */
  function Trim(length: nat, beats: seq<Beat>): (forwarded: seq<Beat>) {
    if beats == [] then []
    else
      var n := |beats| - 1;
      Trim(length, beats[..n]) + Optional(Forwarded(length, n % COUNTER, beats[n]))
  }

  /** What is forwarded of a packet, or of the beginning of one. */
  function Payload(packet: seq<Beat>): (beats: seq<Beat>)
    requires Words(packet)
  {
    if |packet| < HEADER_WORDS then [] else Trim(HeaderOf(packet).length, packet[HEADER_WORDS..])
  }

  ghost predicate HeadedWords(packets: seq<seq<Beat>>) {
    forall k :: 0 <= k < |packets| ==> Words(packets[k]) && |packets[k]| >= HEADER_WORDS
  }

  function Payloads(packets: seq<seq<Beat>>): (beats: seq<Beat>)
    requires HeadedWords(packets)
  {
    if packets == [] then [] else Payloads(packets[..|packets| - 1]) + Payload(packets[|packets| - 1])
  }

  function Headers(packets: seq<seq<Beat>>): (headers: seq<Header>)
    requires HeadedWords(packets)
  {
    if packets == [] then [] else Headers(packets[..|packets| - 1]) + [HeaderOf(packets[|packets| - 1])]
  }

  /** Consumed and forwarded beats, the header registers at each end of header, and the headers handed over. */
  datatype History = History(consumed: seq<Beat>, forwarded: seq<Beat>, headers: seq<Header>, taken: seq<Header>)

  const EMPTY := History([], [], [], [])

  /** The handshake of the header channel. */
  predicate Takes(r: Registers, i: Input) { r.hdrValid && i.hdrReady }

  function Record(r: Registers, i: Input, h: History): (h': History)
    requires LegalInput(i)
  {
    History(
      if Consumes(i) then h.consumed + [i.beat] else h.consumed,
      h.forwarded + Optional(Forwards(r, i)),
      if HeaderEnds(r, i) then h.headers + [Next(r, i).hdr] else h.headers,
      if Takes(r, i) then h.taken + [r.hdr] else h.taken)
  }

  ghost predicate WordPackets(p: Packets) {
    && Words(p.open)
    && HeadedWords(p.complete)
  }

  /** The header registers agree with the words consumed so far. */
  ghost predicate HeaderSoFar(hdr: Header, open: seq<Beat>)
    requires Words(open)
  {
    && (|open| > 0 ==> hdr.length == Low(open[0], 2))
    && (|open| > 1 ==> hdr.sourceIp == Low(open[1], 4))
    && (|open| > 2 ==> hdr.sourcePort == Low(open[2], 2))
    && (|open| > 3 ==> hdr.destIp == Low(open[3], 4))
    && (|open| > 4 ==> hdr.destPort == Low(open[4], 2))
  }

  ghost predicate ControlInv(r: Registers, p: Packets) {
    && WordPackets(p)
    && r.inPayload == (|p.open| >= HEADER_WORDS)
    && (!r.inPayload ==> r.headerCount == |p.open|)
    && (r.inPayload ==> r.count == (|p.open| - HEADER_WORDS) % COUNTER)
  }

  ghost predicate OutputInv(h: History, p: Packets)
    requires WordPackets(p)
  {
    && h.forwarded == Payloads(p.complete) + Payload(p.open)
    && h.headers == Headers(p.complete) + if |p.open| >= HEADER_WORDS then [HeaderOf(p.open)] else []
  }

  ghost predicate Inv(r: Registers, h: History) {
    var p := Cut(h.consumed);
    ControlInv(r, p) && HeaderSoFar(r.hdr, p.open) && OutputInv(h, p)
  }

  const RESET := Registers(false, 0, 0, Header(0, 0, 0, 0, 0), false)

  lemma CutAppend(beats: seq<Beat>, b: Beat)
    ensures Cut(beats + [b]) == CutNext(Cut(beats), b)
  {
    assert (beats + [b])[..|beats|] == beats;
  }

  lemma HeaderIsSettled(packet: seq<Beat>, b: Beat)
    requires |packet| >= HEADER_WORDS && Words(packet) && Words(packet + [b])
    ensures HeaderOf(packet + [b]) == HeaderOf(packet)
  {
    assert forall k :: 0 <= k < HEADER_WORDS ==> (packet + [b])[k] == packet[k];
  }

  lemma TrimAppend(length: nat, beats: seq<Beat>, b: Beat)
    ensures Trim(length, beats + [b]) == Trim(length, beats) + Optional(Forwarded(length, |beats| % COUNTER, b))
  {
    assert (beats + [b])[..|beats|] == beats;
  }

  lemma PayloadAppend(packet: seq<Beat>, b: Beat)
    requires |packet| >= HEADER_WORDS && Words(packet) && Words(packet + [b])
    ensures Payload(packet + [b]) ==
            Payload(packet) + Optional(Forwarded(HeaderOf(packet).length, (|packet| - HEADER_WORDS) % COUNTER, b))
  {
    HeaderIsSettled(packet, b);
    assert (packet + [b])[HEADER_WORDS..] == packet[HEADER_WORDS..] + [b];
    TrimAppend(HeaderOf(packet).length, packet[HEADER_WORDS..], b);
  }

  lemma PacketsAppend(packets: seq<seq<Beat>>, p: seq<Beat>)
    requires HeadedWords(packets) && Words(p) && |p| >= HEADER_WORDS
    ensures HeadedWords(packets + [p])
    ensures Payloads(packets + [p]) == Payloads(packets) + Payload(p)
    ensures Headers(packets + [p]) == Headers(packets) + [HeaderOf(p)]
  {
    assert (packets + [p])[..|packets|] == packets;
  }

  /** The packets after one more beat. */
  function CutNext(p: Packets, b: Beat): (p': Packets) {
    if |p.open| >= HEADER_WORDS && b.last then Packets(p.complete + [p.open + [b]], [])
    else Packets(p.complete, p.open + [b])
  }

  lemma ControlStep(r: Registers, i: Input, p: Packets)
    requires LegalInput(i) && ControlInv(r, p) && Consumes(i)
    ensures ControlInv(Next(r, i), CutNext(p, i.beat))
  {
    assert Words(p.open + [i.beat]);
    if r.inPayload {
      assert (r.count + 1) % COUNTER == (|p.open| + 1 - HEADER_WORDS) % COUNTER;
    }
  }

  lemma HeaderStep(r: Registers, i: Input, p: Packets)
    requires LegalInput(i) && ControlInv(r, p) && HeaderSoFar(r.hdr, p.open) && Consumes(i)
    ensures Words(CutNext(p, i.beat).open) && HeaderSoFar(Next(r, i).hdr, CutNext(p, i.beat).open)
    ensures !r.inPayload && |p.open| == HEADER_WORDS - 1 ==> Next(r, i).hdr == HeaderOf(p.open + [i.beat])
  {
    assert Words(p.open + [i.beat]);
  }

  /** The word that is still header. */
  lemma OutputHeader(r: Registers, i: Input, h: History, p: Packets)
    requires LegalInput(i) && ControlInv(r, p) && HeaderSoFar(r.hdr, p.open) && Consumes(i) && OutputInv(h, p)
             && !r.inPayload
    ensures WordPackets(CutNext(p, i.beat)) && OutputInv(Record(r, i, h), CutNext(p, i.beat))
  {
    ControlStep(r, i, p);
    HeaderStep(r, i, p);
    assert Payload(p.open + [i.beat]) == [];
    assert Headers(p.complete) + [] == Headers(p.complete);
  }

  /** A payload word, before it is known whether the packet ends with it. */
  lemma OutputWord(r: Registers, i: Input, h: History, p: Packets)
    requires LegalInput(i) && ControlInv(r, p) && HeaderSoFar(r.hdr, p.open) && OutputInv(h, p) && r.inPayload
             && Consumes(i)
    ensures Words(p.open + [i.beat]) && HeaderOf(p.open + [i.beat]) == HeaderOf(p.open)
    ensures Record(r, i, h).forwarded == Payloads(p.complete) + Payload(p.open + [i.beat])
  {
    var more := Optional(Forwards(r, i));
    assert Words(p.open + [i.beat]);
    HeaderIsSettled(p.open, i.beat);
    PayloadAppend(p.open, i.beat);
    assert Payloads(p.complete) + Payload(p.open) + more == Payloads(p.complete) + (Payload(p.open) + more);
  }

  /** A payload word. */
  lemma OutputPayload(r: Registers, i: Input, h: History, p: Packets)
    requires LegalInput(i) && ControlInv(r, p) && HeaderSoFar(r.hdr, p.open) && Consumes(i) && OutputInv(h, p)
             && r.inPayload
    ensures WordPackets(CutNext(p, i.beat)) && OutputInv(Record(r, i, h), CutNext(p, i.beat))
  {
    OutputWord(r, i, h, p);
    if i.beat.last {
      PacketsAppend(p.complete, p.open + [i.beat]);
      assert Payload([]) == [];
    }
  }

  /** Between beats the header registers may sample idle data, but only the word whose turn it is. */
  lemma WaitHeader(r: Registers, i: Input, open: seq<Beat>)
    requires LegalInput(i) && Words(open) && HeaderSoFar(r.hdr, open)
    requires !r.inPayload ==> r.headerCount == |open|
    ensures HeaderSoFar(Sample(r, i.beat), open)
  {
  }

  lemma WaitStep(r: Registers, i: Input, h: History)
    requires LegalInput(i) && Inv(r, h) && !Consumes(i)
    ensures Inv(Next(r, i), Record(r, i, h))
  {
    WaitHeader(r, i, Cut(h.consumed).open);
    assert Record(r, i, h) == h.(taken := Record(r, i, h).taken) by {
      assert h.forwarded + [] == h.forwarded;
    }
  }

  lemma Step(r: Registers, i: Input, h: History)
    requires LegalInput(i) && Inv(r, h)
    ensures Inv(Next(r, i), Record(r, i, h))
  {
    if Consumes(i) {
      var p := Cut(h.consumed);
      CutAppend(h.consumed, i.beat);
      ControlStep(r, i, p);
      HeaderStep(r, i, p);
      if r.inPayload {
        OutputPayload(r, i, h, p);
      } else {
        OutputHeader(r, i, h, p);
      }
    } else {
      WaitStep(r, i, h);
    }
  }

  ghost predicate LegalRun(inputs: seq<Input>) {
    forall k :: 0 <= k < |inputs| ==> LegalInput(inputs[k])
  }

  ghost function Run(inputs: seq<Input>): (r: (Registers, History))
    requires LegalRun(inputs)
  {
    if inputs == [] then (RESET, EMPTY)
    else
      var before := Run(inputs[..|inputs| - 1]);
      var i := inputs[|inputs| - 1];
      (Next(before.0, i), Record(before.0, i, before.1))
  }

  lemma {:induction false} RunKeepsInv(inputs: seq<Input>)
    requires LegalRun(inputs)
    ensures Inv(Run(inputs).0, Run(inputs).1)
  {
    if inputs != [] {
      var n := |inputs| - 1;
      RunKeepsInv(inputs[..n]);
      var (r, h) := Run(inputs[..n]);
      Step(r, inputs[n], h);
    }
  }

  /**
   For every valid/ready pattern the machine computes, packet by packet, the same function of the
   consumed stream: what it forwards, and the headers it puts into its registers.
   */
  lemma RemoverRefinesFunction(inputs: seq<Input>)
    requires LegalRun(inputs)
    ensures var h := Run(inputs).1;
            var p := Cut(h.consumed);
            && WordPackets(p)
            && h.forwarded == Payloads(p.complete) + Payload(p.open)
            && Headers(p.complete) <= h.headers
  {
    RunKeepsInv(inputs);
  }

  // ---------------------------------------------------------------------------------------------
  // Bytes
  // ---------------------------------------------------------------------------------------------

  /** The words of whole-slot reads: every lane carries a byte, tlast is on the final word. */
  ghost predicate FullFrame(beats: seq<Beat>) {
    && 0 < |beats| <= COUNTER
    && (forall k :: 0 <= k < |beats| ==>
          |beats[k].data| == WORD && beats[k].keep == Mask(WORD, WORD) && beats[k].last == (k + 1 == |beats|))
  }

  function Data(beats: seq<Beat>): (bytes: seq<Byte>) {
    if beats == [] then [] else Data(beats[..|beats| - 1]) + beats[|beats| - 1].data
  }

  lemma {:induction false} DataPrefix(beats: seq<Beat>, k: nat)
    requires k <= |beats| && forall j :: 0 <= j < |beats| ==> |beats[j].data| == WORD
    ensures |Data(beats)| == WORD * |beats|
    ensures Data(beats)[..WORD * k] == Data(beats[..k])
  {
    if k == |beats| {
      assert beats[..k] == beats;
      if beats != [] {
        DataPrefix(beats[..k - 1], k - 1);
      }
      assert Data(beats)[..|Data(beats)|] == Data(beats);
    } else {
      DataPrefix(beats[..|beats| - 1], k);
      assert beats[..|beats| - 1][..k] == beats[..k];
    }
  }

  /** A word before the one that reaches the length is forwarded as it is. */
  lemma ForwardInner(length: nat, c: nat, b: Beat)
    requires c < COUNTER && c * WORD + WORD < length < 0x1_0000_0000
    ensures Forwarded(length, c, b) == Some(Beat(b.data, b.keep, b.last))
  {
    assert Unsigned(length - WORD) == length - WORD;
    assert Unsigned(length / WORD - 1) == length / WORD - 1;
  }

  /** The word that reaches the length is cut there and ends the frame. */
  lemma ForwardFinal(length: nat, c: nat, b: Beat)
    requires c < COUNTER && WORD <= length < 0x1_0000_0000 && c * WORD < length <= c * WORD + WORD
    requires b.keep == Mask(WORD, WORD)
    ensures Forwarded(length, c, b) == Some(Beat(b.data, Mask(WORD, length - c * WORD), true))
  {
    assert Unsigned(length - WORD) == length - WORD;
    assert Unsigned(length / WORD - 1) == length / WORD - 1;
  }

  /** A length below one word wraps the comparison: the first word passes whole and unfinished. */
  lemma ForwardShort(length: nat, c: nat, b: Beat)
    requires c < COUNTER && length < WORD
    ensures Forwarded(length, c, b) == if c == 0 && length > 0 then Some(Beat(b.data, b.keep, b.last)) else None
  {
    assert Unsigned(length - WORD) == 0x1_0000_0000 + length - WORD;
    assert Unsigned(length / WORD - 1) == 0xffff_ffff;
  }

  /** The number of words forwarded. */
  function Needed(length: nat, m: nat): (q: nat) {
    if (length + WORD - 1) / WORD <= m then (length + WORD - 1) / WORD else m
  }

  /** What a frame becomes up to word `k`. */
  ghost predicate TrimmedUpTo(length: nat, beats: seq<Beat>, k: nat)
    requires k <= |beats|
  {
    Split(Trim(length, beats[..k])) ==
      if k < Needed(length, |beats|) then Frames([], Data(beats[..k]))
      else Frames([Prefix(Data(beats), length)], [])
  }

  function Prefix(bytes: seq<Byte>, length: nat): (p: seq<Byte>) { bytes[..Min(length, |bytes|)] }

  lemma TrimNext(length: nat, beats: seq<Beat>, c: nat, out: Option<Beat>)
    requires c < |beats| <= COUNTER && Forwarded(length, c, beats[c]) == out
    ensures Trim(length, beats[..c + 1]) == Trim(length, beats[..c]) + Optional(out)
  {
    assert beats[..c + 1] == beats[..c] + [beats[c]];
    TrimAppend(length, beats[..c], beats[c]);
  }

  lemma InnerTrim(length: nat, beats: seq<Beat>, c: nat)
    requires FullFrame(beats) && length < 0x1_0000_0000 && c + 1 < Needed(length, |beats|)
    ensures Trim(length, beats[..c + 1]) == Trim(length, beats[..c]) + [beats[c]]
  {
    ForwardInner(length, c, beats[c]);
    TrimNext(length, beats, c, Some(beats[c]));
  }

  lemma InnerWord(length: nat, beats: seq<Beat>, c: nat)
    requires FullFrame(beats) && length < 0x1_0000_0000 && c + 1 < Needed(length, |beats|)
    requires TrimmedUpTo(length, beats, c)
    ensures TrimmedUpTo(length, beats, c + 1)
  {
    var b := beats[c];
    InnerTrim(length, beats, c);
    LeadOfMask(WORD, WORD);
    SplitAppend(Trim(length, beats[..c]), b);
    assert Kept(b) == b.data;
    assert beats[..c + 1][..c] == beats[..c];
  }

  /** The bytes up to `end`, which lies in word `c` or at its end. */
  lemma CutInWord(beats: seq<Beat>, c: nat, end: nat)
    requires c < |beats| && forall j :: 0 <= j < |beats| ==> |beats[j].data| == WORD
    requires c * WORD <= end <= c * WORD + WORD
    ensures |Data(beats)| == WORD * |beats|
    ensures Data(beats)[..end] == Data(beats[..c]) + beats[c].data[..end - c * WORD]
  {
    DataPrefix(beats, c);
    DataPrefix(beats, c + 1);
    assert beats[..c + 1][..c] == beats[..c];
    var upTo := Data(beats)[..WORD * (c + 1)];
    assert upTo == Data(beats[..c]) + beats[c].data;
    assert upTo[..end] == Data(beats)[..end];
  }

  /** The last forwarded word. */
  function Final(length: nat, beats: seq<Beat>, c: nat): (out: Beat)
    requires c < |beats|
  {
    Beat(beats[c].data, Mask(WORD, Min(length, WORD * |beats|) - c * WORD), true)
  }

  lemma FinalTrim(length: nat, beats: seq<Beat>, c: nat)
    requires FullFrame(beats) && WORD <= length < 0x1_0000_0000 && c + 1 == Needed(length, |beats|)
    ensures 0 < Min(length, WORD * |beats|) - c * WORD <= WORD
    ensures Trim(length, beats[..c + 1]) == Trim(length, beats[..c]) + [Final(length, beats, c)]
  {
    if c * WORD + WORD < length {
      ForwardInner(length, c, beats[c]);
    } else {
      ForwardFinal(length, c, beats[c]);
    }
    TrimNext(length, beats, c, Some(Final(length, beats, c)));
  }

  lemma FinalWord(length: nat, beats: seq<Beat>, c: nat)
    requires FullFrame(beats) && WORD <= length < 0x1_0000_0000 && c + 1 == Needed(length, |beats|)
    requires TrimmedUpTo(length, beats, c)
    ensures TrimmedUpTo(length, beats, c + 1)
  {
    var end := Min(length, WORD * |beats|);
    FinalTrim(length, beats, c);
    CutInWord(beats, c, end);
    EndFrame(Trim(length, beats[..c]), Data(beats[..c]), Final(length, beats, c), end - c * WORD);
  }

  /** A masked last beat closes the open frame. */
  lemma EndFrame(before: seq<Beat>, open: seq<Byte>, out: Beat, take: nat)
    requires Split(before) == Frames([], open) && out.last
    requires |out.data| == WORD && take <= WORD && out.keep == Mask(WORD, take)
    ensures Split(before + [out]) == Frames([open + out.data[..take]], [])
  {
    LeadOfMask(WORD, take);
    SplitAppend(before, out);
  }

  lemma LateWord(length: nat, beats: seq<Beat>, c: nat)
    requires FullFrame(beats) && length < 0x1_0000_0000 && Needed(length, |beats|) <= c < |beats|
    requires TrimmedUpTo(length, beats, c)
    ensures TrimmedUpTo(length, beats, c + 1)
  {
    TrimNext(length, beats, c, None);
    assert Trim(length, beats[..c]) + [] == Trim(length, beats[..c]);
  }

  lemma {:induction false} TrimUpTo(length: nat, beats: seq<Beat>, k: nat)
    requires FullFrame(beats) && WORD <= length < 0x1_0000_0000 && k <= |beats|
    ensures TrimmedUpTo(length, beats, k)
  {
    if k != 0 {
      TrimUpTo(length, beats, k - 1);
      if k < Needed(length, |beats|) {
        InnerWord(length, beats, k - 1);
      } else if k == Needed(length, |beats|) {
        FinalWord(length, beats, k - 1);
      } else {
        LateWord(length, beats, k - 1);
      }
    }
  }

  /**
   The payload of a packet comes out as exactly one frame, cut to the length field or to what the
   slot holds, if and only if the length is at least one word.
   */
  lemma TrimIsPayloadIff(length: nat, beats: seq<Beat>)
    requires FullFrame(beats) && length < 0x1_0000_0000
    ensures WORD <= length <==> Split(Trim(length, beats)).complete == [Prefix(Data(beats), length)]
    ensures WORD <= length ==> Split(Trim(length, beats)).open == []
  {
    assert beats[..|beats|] == beats;
    if WORD <= length {
      TrimUpTo(length, beats, |beats|);
    } else {
      ShortTrim(length, beats, |beats|);
      ShortFrame(beats[0]);
      DataPrefix(beats, 0);
      assert |Prefix(Data(beats), length)| < WORD;
    }
  }

  lemma ShortFrame(b: Beat)
    requires |b.data| == WORD && b.keep == Mask(WORD, WORD)
    ensures Split([b]).complete == if b.last then [b.data] else []
  {
    SplitSingle(b);
    LeadOfMask(WORD, WORD);
    assert Kept(b) == b.data;
  }

  lemma ShortNext(length: nat, beats: seq<Beat>, k: nat)
    requires FullFrame(beats) && length < WORD && k < |beats|
    ensures Trim(length, beats[..k + 1]) == Trim(length, beats[..k]) + if k == 0 && length > 0 then [beats[0]] else []
  {
    ForwardShort(length, k, beats[k]);
    TrimNext(length, beats, k, if k == 0 && length > 0 then Some(beats[k]) else None);
  }

  lemma {:induction false} ShortTrim(length: nat, beats: seq<Beat>, k: nat)
    requires FullFrame(beats) && length < WORD && k <= |beats|
    ensures Trim(length, beats[..k]) == if k > 0 && length > 0 then [beats[0]] else []
  {
    if k != 0 {
      ShortTrim(length, beats, k - 1);
      ShortNext(length, beats, k - 1);
    }
  }
}
