/**
 The stream width adapter, cycle by cycle: narrow beats packed into wide ones, and wide beats cut into
 narrow ones. `w` lanes on the narrow side, `c` of those on the wide side.
 */
module Adapter {
  import opened Stream

  /** One cycle: the input stream, and whether the output is taken. */
  datatype Input = Input(tvalid: bool, beat: Beat, mready: bool)

  /**
   What a legal source sends on a bus of `n` lanes: contiguous non-empty tkeep, partial only at the end of a frame.
   */
  ghost predicate LegalBeat(n: nat, b: Beat) { WellFormed(n, b) && 0 < Lead(b.keep) }

  ghost predicate LegalInput(n: nat, i: Input) {
    |i.beat.data| == |i.beat.keep| == n && (i.tvalid ==> LegalBeat(n, i.beat))
  }

  ghost predicate LegalBeats(n: nat, beats: seq<Beat>) {
    forall k :: 0 <= k < |beats| ==> LegalBeat(n, beats[k])
  }

  /** Beats taken in and beats handed out so far. */
  datatype History = History(consumed: seq<Beat>, delivered: seq<Beat>)

  const EMPTY := History([], [])

  /** Two beats whose bytes are those of one beat. */
  lemma ExtendTwice(f: Frames, a: Beat, b: Beat, whole: Beat)
    requires !a.last && whole.last == b.last && Kept(whole) == Kept(a) + Kept(b)
    ensures Extend(Extend(f, a), b) == Extend(f, whole)
  {
    assert f.open + Kept(a) + Kept(b) == f.open + (Kept(a) + Kept(b));
  }

  lemma KeptOfMask(b: Beat, k: nat)
    requires k <= |b.data| == |b.keep| && b.keep == Mask(|b.data|, k)
    ensures Lead(b.keep) == k && Kept(b) == b.data[..k]
  {
    LeadOfMask(|b.data|, k);
  }

  lemma SegmentFits(seg: nat, w: nat, c: nat)
    requires seg < c
    ensures seg * w + w == (seg + 1) * w <= c * w
  {
    assert (c - seg - 1) * w >= 0;
  }

  // ---------------------------------------------------------------------------------------------
  // Narrow to wide
  // ---------------------------------------------------------------------------------------------

  /** Segment counter, skid register and output register. */
  datatype Up = Up(seg: nat, skid: Beat, skidValid: bool, out: Beat, outValid: bool)

  /** A part select assignment. */
  function Put<T>(x: seq<T>, at: nat, part: seq<T>): (y: seq<T>)
    requires at + |part| <= |x|
    ensures |y| == |x|
  {
    x[..at] + part + x[at + |part|..]
  }

  ghost predicate UpShape(w: nat, c: nat, s: Up) {
    && s.seg < c
    && |s.skid.data| == |s.skid.keep| == w
    && |s.out.data| == |s.out.keep| == c * w
  }

  predicate UpConsumes(s: Up, i: Input) { i.tvalid && !s.skidValid }

  function UpSource(s: Up, i: Input): Beat { if s.skidValid then s.skid else i.beat }

  /** The output register after loading the current segment. */
  function UpLoad(w: nat, c: nat, s: Up, i: Input): (b: Beat)
    requires UpShape(w, c, s) && |i.beat.data| == |i.beat.keep| == w
    ensures |b.data| == |b.keep| == c * w
  {
    SegmentFits(s.seg, w, c);
    var b := UpSource(s, i);
    if s.seg == 0 then
      Beat(Put(s.out.data, 0, b.data), b.keep + seq(c * w - w, _ => false), b.last)
    else
      Beat(Put(s.out.data, s.seg * w, i.beat.data), Put(s.out.keep, s.seg * w, i.beat.keep), b.last)
  }

  function UpNext(w: nat, c: nat, s: Up, i: Input): (s': Up)
    requires UpShape(w, c, s) && |i.beat.data| == |i.beat.keep| == w
    ensures UpShape(w, c, s')
  {
    if !s.outValid || i.mready then
      var ends := UpSource(s, i).last || s.seg == c - 1;
      var loads := s.skidValid || i.tvalid;
      Up(
        if !loads then s.seg else if ends then 0 else s.seg + 1,
        s.skid,
        false,
        UpLoad(w, c, s, i),
        loads && ends)
    else if UpConsumes(s, i) then
      s.(skid := i.beat, skidValid := true)
    else
      s
  }

  function UpRecord(s: Up, i: Input, h: History): History {
    History(
      if UpConsumes(s, i) then h.consumed + [i.beat] else h.consumed,
      if s.outValid && i.mready then h.delivered + [s.out] else h.delivered)
  }

  ghost predicate UpReset(w: nat, c: nat, s: Up) {
    UpShape(w, c, s) && s.seg == 0 && !s.skidValid && !s.outValid
  }

  /** The segments collected so far. */
  function Collected(w: nat, s: Up): Beat
    requires s.seg * w <= |s.out.data|
  {
    Beat(s.out.data[..s.seg * w], Mask(s.seg * w, s.seg * w), false)
  }

  /** The frames `f`, continued by what the adapter holds. */
  function UpHeld(w: nat, s: Up, f: Frames): Frames
    requires s.seg * w <= |s.out.data|
  {
    var f1 := if s.outValid then Extend(f, s.out) else f;
    var f2 := if s.seg > 0 then Extend(f1, Collected(w, s)) else f1;
    if s.skidValid then Extend(f2, s.skid) else f2
  }

  /** Lanes below the current segment are filled, lanes above it are not; the skid register backs a full output. */
  ghost predicate UpControl(w: nat, c: nat, s: Up) {
    && UpShape(w, c, s)
    && (s.skidValid ==> s.outValid && LegalBeat(w, s.skid))
    && (s.outValid ==> s.seg == 0 && LegalBeat(c * w, s.out))
    && (s.seg > 0 ==>
          && (forall k :: 0 <= k < s.seg * w ==> s.out.keep[k])
          && (forall k :: s.seg * w + w <= k < c * w ==> !s.out.keep[k]))
  }

  ghost predicate UpInv(w: nat, c: nat, s: Up, h: History) {
    && UpControl(w, c, s)
    && s.seg * w <= |s.out.data|
    && LegalBeats(c * w, h.delivered)
    && UpHeld(w, s, Split(h.delivered)) == Split(h.consumed)
  }

  /** Loading a legal segment: the lanes below it stay, it is legal if it ends here. */
  lemma UpLoadControl(w: nat, c: nat, s: Up, i: Input)
    requires 0 < w && 1 < c && UpControl(w, c, s) && LegalInput(w, i)
    requires !s.outValid || i.mready
    ensures UpControl(w, c, UpNext(w, c, s, i))
  {
    SegmentFits(s.seg, w, c);
    if s.skidValid || i.tvalid {
      var b := UpSource(s, i);
      var l := Lead(b.keep);
      var out := UpLoad(w, c, s, i);
      assert s.skidValid ==> s.seg == 0;
      assert forall k :: 0 <= k < c * w ==> (out.keep[k] <==> k < s.seg * w + l);
      if b.last || s.seg == c - 1 {
        assert out.keep == Mask(c * w, s.seg * w + l);
        LeadOfMask(c * w, s.seg * w + l);
      }
    }
  }

  /** The segments below stay in place, the new one is behind them. */
  lemma UpLoadData(w: nat, c: nat, s: Up, i: Input)
    requires 0 < w && 1 < c && UpControl(w, c, s) && LegalInput(w, i)
    requires s.skidValid ==> s.seg == 0
    ensures s.seg * w + w <= c * w
    ensures var out := UpLoad(w, c, s, i);
            && out.data[..s.seg * w] == s.out.data[..s.seg * w]
            && out.data[..s.seg * w + w] == s.out.data[..s.seg * w] + UpSource(s, i).data
  {
    SegmentFits(s.seg, w, c);
  }

  lemma FullBeat(w: nat, b: Beat)
    requires LegalBeat(w, b)
    ensures Kept(b) == b.data[..Lead(b.keep)]
    ensures !b.last ==> Kept(b) == b.data
  {
  }

  lemma CollectedBytes(w: nat, s: Up)
    requires s.seg * w <= |s.out.data|
    ensures Kept(Collected(w, s)) == s.out.data[..s.seg * w]
  {
    KeptOfMask(Collected(w, s), s.seg * w);
  }

  /** A segment that does not end the wide beat joins the collected ones. */
  lemma UpCollect(w: nat, c: nat, s: Up, i: Input, f: Frames)
    requires 0 < w && 1 < c && UpControl(w, c, s) && LegalInput(w, i) && (!s.outValid || i.mready)
    requires (s.skidValid || i.tvalid) && !UpSource(s, i).last && s.seg < c - 1
    ensures var s' := UpNext(w, c, s, i);
            && s.seg * w <= |s.out.data| && s'.seg * w <= |s'.out.data|
            && Extend(if s.seg > 0 then Extend(f, Collected(w, s)) else f, UpSource(s, i))
               == Extend(f, Collected(w, s'))
  {
    var s' := UpNext(w, c, s, i);
    SegmentFits(s.seg, w, c);
    UpLoadData(w, c, s, i);
    FullBeat(w, UpSource(s, i));
    CollectedBytes(w, s);
    CollectedBytes(w, s');
    if s.seg > 0 {
      ExtendTwice(f, Collected(w, s), UpSource(s, i), Collected(w, s'));
    } else {
      assert s.out.data[..0 * w] + UpSource(s, i).data == UpSource(s, i).data;
    }
  }

  /** A segment that ends the wide beat. */
  lemma UpComplete(w: nat, c: nat, s: Up, i: Input, f: Frames)
    requires 0 < w && 1 < c && UpControl(w, c, s) && LegalInput(w, i) && (!s.outValid || i.mready)
    requires (s.skidValid || i.tvalid) && (UpSource(s, i).last || s.seg == c - 1)
    ensures var s' := UpNext(w, c, s, i);
            && s.seg * w <= |s.out.data|
            && Extend(if s.seg > 0 then Extend(f, Collected(w, s)) else f, UpSource(s, i)) == Extend(f, s'.out)
  {
    var b, out := UpSource(s, i), UpLoad(w, c, s, i);
    var l := Lead(b.keep);
    SegmentFits(s.seg, w, c);
    UpLoadControl(w, c, s, i);
    UpLoadData(w, c, s, i);
    UpLoadLead(w, c, s, i);
    CollectedBytes(w, s);
    assert Kept(out) == out.data[..s.seg * w + w][..s.seg * w + l];
    assert Kept(out) == s.out.data[..s.seg * w] + Kept(b);
    if s.seg > 0 {
      ExtendTwice(f, Collected(w, s), b, out);
    } else {
      assert s.out.data[..0 * w] + Kept(b) == Kept(b);
    }
  }

  lemma UpLoadLead(w: nat, c: nat, s: Up, i: Input)
    requires 0 < w && 1 < c && UpControl(w, c, s) && LegalInput(w, i) && (!s.outValid || i.mready)
    requires (s.skidValid || i.tvalid) && (UpSource(s, i).last || s.seg == c - 1)
    ensures Lead(UpLoad(w, c, s, i).keep) == s.seg * w + Lead(UpSource(s, i).keep) <= c * w
  {
    SegmentFits(s.seg, w, c);
    var l, out := Lead(UpSource(s, i).keep), UpLoad(w, c, s, i);
    assert forall k :: 0 <= k < c * w ==> (out.keep[k] <==> k < s.seg * w + l);
    assert out.keep == Mask(c * w, s.seg * w + l);
    LeadOfMask(c * w, s.seg * w + l);
  }

  /** The output register is free or being emptied. */
  lemma UpMove(w: nat, c: nat, s: Up, i: Input, h: History)
    requires 0 < w && 1 < c && UpInv(w, c, s, h) && LegalInput(w, i) && (!s.outValid || i.mready)
    ensures UpInv(w, c, UpNext(w, c, s, i), UpRecord(s, i, h))
  {
    var s', h' := UpNext(w, c, s, i), UpRecord(s, i, h);
    var f := Split(h'.delivered);
    SegmentFits(s.seg, w, c);
    UpLoadControl(w, c, s, i);
    SegmentFits(s'.seg, w, c);
    if s.outValid {
      SplitAppend(h.delivered, s.out);
    }
    if UpConsumes(s, i) {
      SplitAppend(h.consumed, i.beat);
    }
    if !s.skidValid && !i.tvalid {
      UpLoadData(w, c, s, i);
    } else if UpSource(s, i).last || s.seg == c - 1 {
      UpComplete(w, c, s, i, f);
    } else {
      UpCollect(w, c, s, i, f);
    }
  }

  lemma UpStep(w: nat, c: nat, s: Up, i: Input, h: History)
    requires 0 < w && 1 < c && UpInv(w, c, s, h) && LegalInput(w, i)
    ensures UpInv(w, c, UpNext(w, c, s, i), UpRecord(s, i, h))
  {
    if !s.outValid || i.mready {
      UpMove(w, c, s, i, h);
    } else if UpConsumes(s, i) {
      SplitAppend(h.consumed, i.beat);
    }
  }

  ghost predicate LegalRun(n: nat, inputs: seq<Input>) {
    forall k :: 0 <= k < |inputs| ==> LegalInput(n, inputs[k])
  }

  ghost function UpRun(w: nat, c: nat, start: Up, inputs: seq<Input>): (r: (Up, History))
    requires 0 < w && 1 < c && UpReset(w, c, start) && LegalRun(w, inputs)
    ensures UpShape(w, c, r.0)
  {
    if inputs == [] then (start, EMPTY)
    else
      var (s, h) := UpRun(w, c, start, inputs[..|inputs| - 1]);
      var i := inputs[|inputs| - 1];
      (UpNext(w, c, s, i), UpRecord(s, i, h))
  }

  lemma {:induction false} UpRunKeepsInv(w: nat, c: nat, start: Up, inputs: seq<Input>)
    requires 0 < w && 1 < c && UpReset(w, c, start) && LegalRun(w, inputs)
    ensures UpInv(w, c, UpRun(w, c, start, inputs).0, UpRun(w, c, start, inputs).1)
  {
    if inputs != [] {
      UpRunKeepsInv(w, c, start, inputs[..|inputs| - 1]);
      var (s, h) := UpRun(w, c, start, inputs[..|inputs| - 1]);
      UpStep(w, c, s, inputs[|inputs| - 1], h);
    }
  }

  /**
   Upsizing keeps byte frames, for every valid/ready pattern: wide beats are legal, and the frames they
   carry, continued by what the registers hold, are the frames taken in.
   */
  lemma UpsizePreservesFrames(w: nat, c: nat, start: Up, inputs: seq<Input>)
    requires 0 < w && 1 < c && UpReset(w, c, start) && LegalRun(w, inputs)
    ensures var (s, h) := UpRun(w, c, start, inputs);
            && LegalBeats(c * w, h.delivered)
            && s.seg * w <= |s.out.data|
            && UpHeld(w, s, Split(h.delivered)) == Split(h.consumed)
            && (s.seg == 0 && !s.outValid && !s.skidValid ==> Split(h.delivered) == Split(h.consumed))
  {
    UpRunKeepsInv(w, c, start, inputs);
  }

  // ---------------------------------------------------------------------------------------------
  // Wide to narrow
  // ---------------------------------------------------------------------------------------------

  /** Input register, from which segments are shifted out, and output register. */
  datatype Down = Down(held: Beat, heldValid: bool, out: Beat, outValid: bool)

  ghost predicate DownShape(w: nat, c: nat, s: Down) {
    && |s.held.data| == |s.held.keep| == c * w
    && |s.out.data| == |s.out.keep| == w
  }

  predicate DownConsumes(s: Down, i: Input) { i.tvalid && !s.heldValid }

  function DownSource(s: Down, i: Input): Beat { if s.heldValid then s.held else i.beat }

  /** The register shifted down by one segment. */
  function Shifted(w: nat, b: Beat): (b': Beat)
    requires w <= |b.data| == |b.keep|
    ensures |b'.data| == |b'.keep| == |b.data|
  {
    Beat(b.data[w..] + seq(w, _ => 0), b.keep[w..] + seq(w, _ => false), b.last)
  }

  predicate Blank(keep: seq<bool>) { forall k :: 0 <= k < |keep| ==> !keep[k] }

  function DownNext(w: nat, c: nat, s: Down, i: Input): (s': Down)
    requires 0 < c && DownShape(w, c, s) && |i.beat.data| == |i.beat.keep| == c * w
    ensures DownShape(w, c, s')
  {
    SegmentFits(0, w, c);
    if !s.outValid || i.mready then
      var b := DownSource(s, i);
      var loads := s.heldValid || i.tvalid;
      var ends := Blank(Shifted(w, b).keep);
      Down(
        if loads then Shifted(w, b) else s.held,
        loads && !ends,
        Beat(b.data[..w], b.keep[..w], loads && ends && b.last),
        loads)
    else if DownConsumes(s, i) then
      s.(held := i.beat, heldValid := true)
    else
      s
  }

  function DownRecord(s: Down, i: Input, h: History): History {
    History(
      if DownConsumes(s, i) then h.consumed + [i.beat] else h.consumed,
      if s.outValid && i.mready then h.delivered + [s.out] else h.delivered)
  }

  ghost predicate DownReset(w: nat, c: nat, s: Down) {
    DownShape(w, c, s) && !s.heldValid && !s.outValid
  }

  /** `n` lanes are whole segments. */
  ghost predicate Whole(w: nat, n: nat)
    requires 0 < w
    decreases n
  {
    n == 0 || (w <= n && Whole(w, n - w))
  }

  lemma {:induction false} MultiplesAreWhole(w: nat, c: nat)
    requires 0 < w
    ensures Whole(w, c * w)
  {
    if c != 0 {
      SegmentFits(c - 1, w, c);
      MultiplesAreWhole(w, c - 1);
    }
  }

  /** What may be left of a wide beat of `n` lanes: a contiguous part, whole segments unless the frame ends in it. */
  ghost predicate Remainder(w: nat, n: nat, b: Beat)
    requires 0 < w
  {
    && |b.data| == |b.keep| == n
    && b.keep == Mask(n, Lead(b.keep)) && 0 < Lead(b.keep)
    && (!b.last ==> Whole(w, Lead(b.keep)))
  }

  /** The frames `f`, continued by what the adapter holds. */
  function DownHeld(s: Down, f: Frames): Frames {
    var f1 := if s.outValid then Extend(f, s.out) else f;
    if s.heldValid then Extend(f1, s.held) else f1
  }

  ghost predicate DownInv(w: nat, c: nat, s: Down, h: History)
    requires 0 < w
  {
    && DownShape(w, c, s)
    && (s.heldValid ==> Remainder(w, c * w, s.held))
    && (s.outValid ==> LegalBeat(w, s.out))
    && LegalBeats(w, h.delivered)
    && DownHeld(s, Split(h.delivered)) == Split(h.consumed)
  }

  /** The segment taken off, and whether it is the last. */
  function Segment(w: nat, b: Beat): (out: Beat)
    requires w <= |b.data| == |b.keep|
  {
    Beat(b.data[..w], b.keep[..w], Blank(Shifted(w, b).keep) && b.last)
  }

  lemma BlankIff(w: nat, n: nat, b: Beat)
    requires 0 < w <= n && Remainder(w, n, b)
    ensures Blank(Shifted(w, b).keep) <==> Lead(b.keep) <= w
  {
    var l, rest := Lead(b.keep), Shifted(w, b);
    assert forall k :: 0 <= k < n ==> (rest.keep[k] <==> k < l - w);
    assert w < l ==> rest.keep[0];
  }

  lemma LastSegment(w: nat, n: nat, b: Beat)
    requires 0 < w <= n && Remainder(w, n, b) && Lead(b.keep) <= w
    ensures LegalBeat(w, Segment(w, b)) && Kept(Segment(w, b)) == Kept(b) && Segment(w, b).last == b.last
  {
    var l, out := Lead(b.keep), Segment(w, b);
    BlankIff(w, n, b);
    assert out.keep == Mask(w, l);
    KeptOfMask(out, l);
    assert b.data[..w][..l] == b.data[..l];
  }

  lemma InnerSegment(w: nat, n: nat, b: Beat, f: Frames)
    requires 0 < w <= n && Remainder(w, n, b) && w < Lead(b.keep)
    ensures LegalBeat(w, Segment(w, b)) && Remainder(w, n, Shifted(w, b))
    ensures Extend(Extend(f, Segment(w, b)), Shifted(w, b)) == Extend(f, b)
  {
    var l, out, rest := Lead(b.keep), Segment(w, b), Shifted(w, b);
    BlankIff(w, n, b);
    assert out.keep == Mask(w, w);
    KeptOfMask(out, w);
    assert rest.keep == Mask(n, l - w);
    KeptOfMask(rest, l - w);
    assert Kept(out) + Kept(rest) == Kept(b);
    ExtendTwice(f, out, rest, b);
  }

  /** Taking one segment off what is left of a beat. */
  lemma TakeSegment(w: nat, n: nat, b: Beat, f: Frames)
    requires 0 < w <= n && Remainder(w, n, b)
    ensures LegalBeat(w, Segment(w, b))
    ensures Blank(Shifted(w, b).keep) ==> Extend(f, Segment(w, b)) == Extend(f, b)
    ensures !Blank(Shifted(w, b).keep) ==>
              Remainder(w, n, Shifted(w, b)) && Extend(Extend(f, Segment(w, b)), Shifted(w, b)) == Extend(f, b)
  {
    BlankIff(w, n, b);
    if Lead(b.keep) <= w {
      LastSegment(w, n, b);
    } else {
      InnerSegment(w, n, b, f);
    }
  }

  lemma LegalIsRemainder(w: nat, c: nat, b: Beat)
    requires 0 < w && LegalBeat(c * w, b)
    ensures Remainder(w, c * w, b)
  {
    MultiplesAreWhole(w, c);
  }

  /** The output register is free or being emptied, and there is a segment to load. */
  lemma DownMove(w: nat, c: nat, s: Down, i: Input, h: History)
    requires 0 < w && 1 < c && DownInv(w, c, s, h) && LegalInput(c * w, i)
    requires (!s.outValid || i.mready) && (s.heldValid || i.tvalid)
    ensures DownInv(w, c, DownNext(w, c, s, i), DownRecord(s, i, h))
  {
    var b := DownSource(s, i);
    SegmentFits(0, w, c);
    if i.tvalid {
      LegalIsRemainder(w, c, i.beat);
    }
    if DownConsumes(s, i) {
      SplitAppend(h.consumed, i.beat);
    }
    if s.outValid {
      SplitAppend(h.delivered, s.out);
    }
    TakeSegment(w, c * w, b, Split(DownRecord(s, i, h).delivered));
  }

  lemma DownStep(w: nat, c: nat, s: Down, i: Input, h: History)
    requires 0 < w && 1 < c && DownInv(w, c, s, h) && LegalInput(c * w, i)
    ensures DownInv(w, c, DownNext(w, c, s, i), DownRecord(s, i, h))
  {
    if (!s.outValid || i.mready) && (s.heldValid || i.tvalid) {
      DownMove(w, c, s, i, h);
    } else if s.outValid && i.mready {
      SplitAppend(h.delivered, s.out);
    } else if DownConsumes(s, i) {
      LegalIsRemainder(w, c, i.beat);
      SplitAppend(h.consumed, i.beat);
    }
  }

  ghost function DownRun(w: nat, c: nat, start: Down, inputs: seq<Input>): (r: (Down, History))
    requires 0 < w && 1 < c && DownReset(w, c, start) && LegalRun(c * w, inputs)
    ensures DownShape(w, c, r.0)
  {
    if inputs == [] then (start, EMPTY)
    else
      var (s, h) := DownRun(w, c, start, inputs[..|inputs| - 1]);
      var i := inputs[|inputs| - 1];
      (DownNext(w, c, s, i), DownRecord(s, i, h))
  }

  lemma {:induction false} DownRunKeepsInv(w: nat, c: nat, start: Down, inputs: seq<Input>)
    requires 0 < w && 1 < c && DownReset(w, c, start) && LegalRun(c * w, inputs)
    ensures DownInv(w, c, DownRun(w, c, start, inputs).0, DownRun(w, c, start, inputs).1)
  {
    if inputs != [] {
      DownRunKeepsInv(w, c, start, inputs[..|inputs| - 1]);
      var (s, h) := DownRun(w, c, start, inputs[..|inputs| - 1]);
      DownStep(w, c, s, inputs[|inputs| - 1], h);
    }
  }

  /** Downsizing keeps byte frames, for every valid/ready pattern. */
  lemma DownsizePreservesFrames(w: nat, c: nat, start: Down, inputs: seq<Input>)
    requires 0 < w && 1 < c && DownReset(w, c, start) && LegalRun(c * w, inputs)
    ensures var (s, h) := DownRun(w, c, start, inputs);
            && LegalBeats(w, h.delivered)
            && DownHeld(s, Split(h.delivered)) == Split(h.consumed)
            && (!s.outValid && !s.heldValid ==> Split(h.delivered) == Split(h.consumed))
  {
    DownRunKeepsInv(w, c, start, inputs);
  }

  /** Up and down again: once both adapters are empty, the frames are the ones that went in. */
  lemma DownAfterUpIsIdentity(w: nat, c: nat, up: Up, down: Down, wideInputs: seq<Input>, inputs: seq<Input>)
    requires 0 < w && 1 < c && UpReset(w, c, up) && DownReset(w, c, down)
    requires LegalRun(w, inputs) && LegalRun(c * w, wideInputs)
    requires DownRun(w, c, down, wideInputs).1.consumed == UpRun(w, c, up, inputs).1.delivered
    requires var s := UpRun(w, c, up, inputs).0; s.seg == 0 && !s.outValid && !s.skidValid
    requires var s := DownRun(w, c, down, wideInputs).0; !s.outValid && !s.heldValid
    ensures Split(DownRun(w, c, down, wideInputs).1.delivered) == Split(UpRun(w, c, up, inputs).1.consumed)
  {
    UpsizePreservesFrames(w, c, up, inputs);
    DownsizePreservesFrames(w, c, down, wideInputs);
  }

  // ---------------------------------------------------------------------------------------------
  // The registers as the source keeps them
  // ---------------------------------------------------------------------------------------------

  class Upsizer {
    const w: nat
    const c: nat
    var seg: nat
    var skidData: seq<Byte>
    var skidKeep: seq<bool>
    var skidLast: bool
    var skidValid: bool
    var outData: seq<Byte>
    var outKeep: seq<bool>
    var outLast: bool
    var outValid: bool

    ghost function State(): Up
      reads this
    {
      Up(seg, Beat(skidData, skidKeep, skidLast), skidValid, Beat(outData, outKeep, outLast), outValid)
    }

    constructor (w: nat, c: nat)
      requires 0 < w && 1 < c
      ensures this.w == w && this.c == c && UpReset(w, c, State())
    {
      this.w, this.c := w, c;
      seg := 0;
      skidData, skidKeep, skidLast, skidValid := seq(w, _ => 0), seq(w, _ => false), false, false;
      outData, outKeep, outLast, outValid := seq(c * w, _ => 0), seq(c * w, _ => false), false, false;
    }

    /** The current segment of the output register takes the source's lanes. */
    method Load(i: Input)
      requires UpShape(w, c, State()) && |i.beat.data| == |i.beat.keep| == w
      modifies `outData, `outKeep, `outLast
      ensures Beat(outData, outKeep, outLast) == UpLoad(w, c, old(State()), i)
    {
      SegmentFits(seg, w, c);
      if seg == 0 {
        outData := Put(outData, 0, if skidValid then skidData else i.beat.data);
        outKeep := (if skidValid then skidKeep else i.beat.keep) + seq(c * w - w, _ => false);
      } else {
        outData := Put(outData, seg * w, i.beat.data);
        outKeep := Put(outKeep, seg * w, i.beat.keep);
      }
      outLast := if skidValid then skidLast else i.beat.last;
    }

    /** One clock edge. */
    method Clock(i: Input)
      requires 1 < c && UpShape(w, c, State()) && |i.beat.data| == |i.beat.keep| == w
      modifies this
      ensures State() == UpNext(w, c, old(State()), i)
    {
      if !outValid || i.mready {
        Load(i);
        outValid := false;
        if skidValid {
          skidValid := false;
          if skidLast || seg == c - 1 {
            seg, outValid := 0, true;
          } else {
            seg := seg + 1;
          }
        } else if i.tvalid {
          if i.beat.last || seg == c - 1 {
            seg, outValid := 0, true;
          } else {
            seg := seg + 1;
          }
        }
      } else if i.tvalid && !skidValid {
        skidData, skidKeep, skidLast, skidValid := i.beat.data, i.beat.keep, i.beat.last, true;
      }
    }
  }

  class Downsizer {
    const w: nat
    const c: nat
    var heldData: seq<Byte>
    var heldKeep: seq<bool>
    var heldLast: bool
    var heldValid: bool
    var outData: seq<Byte>
    var outKeep: seq<bool>
    var outLast: bool
    var outValid: bool

    ghost function State(): Down
      reads this
    {
      Down(Beat(heldData, heldKeep, heldLast), heldValid, Beat(outData, outKeep, outLast), outValid)
    }

    constructor (w: nat, c: nat)
      requires 0 < w && 1 < c
      ensures this.w == w && this.c == c && DownReset(w, c, State())
    {
      this.w, this.c := w, c;
      heldData, heldKeep, heldLast, heldValid := seq(c * w, _ => 0), seq(c * w, _ => false), false, false;
      outData, outKeep, outLast, outValid := seq(w, _ => 0), seq(w, _ => false), false, false;
    }

    method Clock(i: Input)
      requires 0 < w && 1 < c && DownShape(w, c, State()) && |i.beat.data| == |i.beat.keep| == c * w
      modifies this
      ensures State() == DownNext(w, c, old(State()), i)
    {
      SegmentFits(0, w, c);
      if !outValid || i.mready {
        var data := if heldValid then heldData else i.beat.data;
        var keep := if heldValid then heldKeep else i.beat.keep;
        var last := if heldValid then heldLast else i.beat.last;
        outData, outKeep, outLast, outValid := data[..w], keep[..w], false, false;
        if heldValid || i.tvalid {
          heldData, heldKeep, heldLast := data[w..] + seq(w, _ => 0), keep[w..] + seq(w, _ => false), last;
          outValid := true;
          if Blank(heldKeep) {
            heldValid := false;
            outLast := last;
          } else {
            heldValid := true;
          }
        }
      } else if i.tvalid && !heldValid {
        heldData, heldKeep, heldLast, heldValid := i.beat.data, i.beat.keep, i.beat.last, true;
      }
    }
  }
}
