/** The format of a buffer slot, on which drivers and hardware agree. */
module SlotFormat {
  import opened Arithmetic
  import opened Layout
  import opened Stream
  import opened LittleEndian
  import R = HeaderRemover

  /** The drivers' packet: five 64-bit header fields, then the payload. */
  datatype Packet = Packet(sourceIp: nat, sourcePort: nat, destIp: nat, destPort: nat, payload: seq<Byte>)

  ghost predicate InRange(p: Packet) {
    && p.sourceIp < 0x1_0000_0000 && p.destIp < 0x1_0000_0000
    && p.sourcePort < 0x1_0000 && p.destPort < 0x1_0000
    && |p.payload| < 0x1_0000
  }

  function Field(p: Packet, k: nat): (x: nat) {
    match k
    case 0 => |p.payload|
    case 1 => p.sourceIp
    case 2 => p.sourcePort
    case 3 => p.destIp
    case 4 => p.destPort
    case _ => 0
  }

  /** What the driver copies into a slot, and what the receive path stores there. */
  function Image(p: Packet): (bytes: seq<Byte>)
    ensures |bytes| == HEADER_BYTES + |p.payload|
  {
    Encode(Field(p, 0), 8) + Encode(Field(p, 1), 8) + Encode(Field(p, 2), 8) + Encode(Field(p, 3), 8)
      + Encode(Field(p, 4), 8) + p.payload
  }

  /** The slot starts with the packet's image, as far as it fits; the rest may be left from earlier packets. */
  ghost predicate Holds(slot: seq<Byte>, p: Packet) {
    |slot| == SLOT && var n := Min(SLOT, HEADER_BYTES + |p.payload|); slot[..n] == Image(p)[..n]
  }

  lemma ImageIsHeld(slot: seq<Byte>, p: Packet)
    requires |slot| == SLOT && Image(p) <= slot
    ensures Holds(slot, p)
  {
    var n := HEADER_BYTES + |p.payload|;
    assert Image(p)[..n] == Image(p);
  }

  /** A slot as the read engine streams it. */
  function SlotBeats(slot: seq<Byte>): (beats: seq<Beat>)
    requires |slot| == SLOT
    ensures |beats| == SLOT / 8
  {
    seq(SLOT / 8, k requires 0 <= k < SLOT / 8 => Beat(slot[8 * k..8 * k + 8], Mask(8, 8), k + 1 == SLOT / 8))
  }

  lemma ImageWord(p: Packet, k: nat)
    requires k < 5
    ensures Image(p)[8 * k..8 * k + 8] == Encode(Field(p, k), 8)
  {
  }

  lemma FieldFits(p: Packet, k: nat)
    requires InRange(p) && k < 5
    ensures Field(p, k) < Range(if k == 1 || k == 3 then 4 else 2)
  {
    Ranges();
  }

  lemma WordOfSlot(slot: seq<Byte>, p: Packet, k: nat)
    requires Holds(slot, p) && k < 5
    ensures SlotBeats(slot)[k].data == Encode(Field(p, k), 8)
  {
    var n := Min(SLOT, HEADER_BYTES + |p.payload|);
    assert slot[..n][8 * k..8 * k + 8] == slot[8 * k..8 * k + 8];
    assert Image(p)[..n][8 * k..8 * k + 8] == Image(p)[8 * k..8 * k + 8];
    ImageWord(p, k);
  }

  lemma FieldIsFound(slot: seq<Byte>, p: Packet, k: nat, width: nat)
    requires Holds(slot, p) && InRange(p) && k < 5 && width == if k == 1 || k == 3 then 4 else 2
    ensures R.Low(SlotBeats(slot)[k], width) == Field(p, k)
  {
    WordOfSlot(slot, p, k);
    FieldFits(p, k);
    DecodeLow(Field(p, k), 8, width);
  }

  lemma SlotWords(slot: seq<Byte>)
    requires |slot| == SLOT
    ensures R.Words(SlotBeats(slot)) && R.FullFrame(SlotBeats(slot)[R.HEADER_WORDS..])
  {
    var beats := SlotBeats(slot);
    forall k | 0 <= k < |beats|
      ensures |beats[k].data| == |beats[k].keep| == 8 && beats[k].keep == Mask(8, 8)
              && beats[k].last == (k + 1 == |beats|)
    {
      assert beats[k] == Beat(slot[8 * k..8 * k + 8], Mask(8, 8), k + 1 == SLOT / 8);
    }
  }

  lemma HeaderIsFound(slot: seq<Byte>, p: Packet)
    requires Holds(slot, p) && InRange(p)
    ensures R.Words(SlotBeats(slot))
    ensures R.HeaderOf(SlotBeats(slot)) == R.Header(|p.payload|, p.sourceIp, p.sourcePort, p.destIp, p.destPort)
  {
    SlotWords(slot);
    FieldIsFound(slot, p, 0, 2);
    FieldIsFound(slot, p, 1, 4);
    FieldIsFound(slot, p, 2, 2);
    FieldIsFound(slot, p, 3, 4);
    FieldIsFound(slot, p, 4, 2);
  }

  lemma {:induction false} DataOfSlot(slot: seq<Byte>, k: nat)
    requires |slot| == SLOT && R.HEADER_WORDS <= k <= SLOT / 8
    ensures R.Data(SlotBeats(slot)[R.HEADER_WORDS..k]) == slot[HEADER_BYTES..8 * k]
  {
    var beats := SlotBeats(slot)[R.HEADER_WORDS..k];
    if k != R.HEADER_WORDS {
      DataOfSlot(slot, k - 1);
      assert beats[..|beats| - 1] == SlotBeats(slot)[R.HEADER_WORDS..k - 1];
      assert beats[|beats| - 1].data == slot[8 * (k - 1)..8 * k];
      SliceConcat(slot, HEADER_BYTES, 8 * (k - 1), 8 * k);
    }
  }

  lemma PayloadInSlot(slot: seq<Byte>, p: Packet)
    requires Holds(slot, p)
    ensures R.Prefix(slot[HEADER_BYTES..], |p.payload|) == p.payload[..Min(|p.payload|, MAX_PAYLOAD)]
  {
    var n := Min(SLOT, HEADER_BYTES + |p.payload|);
    assert slot[HEADER_BYTES..][..n - HEADER_BYTES] == slot[..n][HEADER_BYTES..];
    assert Image(p)[..n][HEADER_BYTES..] == Image(p)[HEADER_BYTES..][..n - HEADER_BYTES];
    assert Image(p)[HEADER_BYTES..] == p.payload;
  }

  /**
   A slot that holds a packet, streamed by the read engine into the header remover, gives back its
   header; and its payload, up to the 2008 bytes a slot has room for, as exactly one frame if and only
   if the payload is at least one word long.
   */
  lemma RemoverReadsSlotIff(slot: seq<Byte>, p: Packet)
    requires Holds(slot, p) && InRange(p)
    ensures R.Words(SlotBeats(slot))
    ensures R.HeaderOf(SlotBeats(slot)) == R.Header(|p.payload|, p.sourceIp, p.sourcePort, p.destIp, p.destPort)
    ensures 8 <= |p.payload| <==>
            Split(R.Payload(SlotBeats(slot))).complete == [p.payload[..Min(|p.payload|, MAX_PAYLOAD)]]
    ensures 8 <= |p.payload| ==> Split(R.Payload(SlotBeats(slot))).open == []
  {
    HeaderIsFound(slot, p);
    SlotWords(slot);
    var beats := SlotBeats(slot)[R.HEADER_WORDS..];
    DataOfSlot(slot, SLOT / 8);
    assert SlotBeats(slot)[R.HEADER_WORDS..SLOT / 8] == beats;
    assert R.Data(beats) == slot[HEADER_BYTES..];
    PayloadInSlot(slot, p);
    R.TrimIsPayloadIff(|p.payload|, beats);
  }

  /**
   A payload below one word does not come out as a frame: nothing comes out of an empty one, and of any
   other a whole word of the slot, without an end, which the next packet's payload will continue.
   */
  lemma ShortPayloadStaysOpen(slot: seq<Byte>, p: Packet)
    requires Holds(slot, p) && InRange(p) && |p.payload| < 8
    ensures R.Words(SlotBeats(slot))
    ensures Split(R.Payload(SlotBeats(slot))) == Frames([], if p.payload == [] then [] else slot[HEADER_BYTES..48])
  {
    HeaderIsFound(slot, p);
    SlotWords(slot);
    var beats := SlotBeats(slot)[R.HEADER_WORDS..];
    R.ShortTrim(|p.payload|, beats, |beats|);
    assert beats[..|beats|] == beats;
    SplitSingle(beats[0]);
    LeadOfMask(8, 8);
    assert Kept(beats[0]) == slot[HEADER_BYTES..48];
  }
}
