/** AXI-Stream beats and the byte frames they carry. */
module Stream {

  type Byte = b: int | 0 <= b < 256

  /** One transferred beat: byte lanes, tkeep and tlast. */
  datatype Beat = Beat(data: seq<Byte>, keep: seq<bool>, last: bool)

  /** `w` lanes of which the first `k` are set. */
  function Mask(w: nat, k: int): (m: seq<bool>)
    ensures |m| == w && forall i :: 0 <= i < w ==> (m[i] <==> i < k)
  {
    seq(w, i => i < k)
  }

  /** The number of leading set lanes. */
  function Lead(keep: seq<bool>): (k: nat)
    ensures k <= |keep|
    ensures forall i :: 0 <= i < k ==> keep[i]
    ensures k < |keep| ==> !keep[k]
  {
    if keep == [] || !keep[0] then 0 else 1 + Lead(keep[1..])
  }

  /** The bytes a beat carries when its tkeep is contiguous. */
  function Kept(b: Beat): (bytes: seq<Byte>) {
    b.data[..if Lead(b.keep) <= |b.data| then Lead(b.keep) else |b.data|]
  }

  /** What an AXI-Stream master of `w` lanes sends: a partial beat only at the end of a frame. */
  ghost predicate WellFormed(w: nat, b: Beat) {
    && |b.data| == |b.keep| == w
    && b.keep == Mask(w, Lead(b.keep))
    && (!b.last ==> Lead(b.keep) == w)
  }

  lemma LeadOfMask(w: nat, k: nat)
    requires k <= w
    ensures Lead(Mask(w, k)) == k
  {
    var m := Mask(w, k);
    var l := Lead(m);
    assert k < w ==> !m[k];
    assert 0 < k ==> m[k - 1];
  }

  function Concat(beats: seq<Beat>): (bytes: seq<Byte>) {
    if beats == [] then [] else Concat(beats[..|beats| - 1]) + Kept(beats[|beats| - 1])
  }

  /** Complete frames, and the bytes of the frame that is still open. */
  datatype Frames = Frames(complete: seq<seq<Byte>>, open: seq<Byte>)

  /** A beat stream read as byte frames. */
  function Split(beats: seq<Beat>): (f: Frames) {
    if beats == [] then Frames([], []) else Extend(Split(beats[..|beats| - 1]), beats[|beats| - 1])
  }

  /** Frames after one more beat. */
  function Extend(f: Frames, b: Beat): (f': Frames) {
    if b.last then Frames(f.complete + [f.open + Kept(b)], []) else Frames(f.complete, f.open + Kept(b))
  }

  lemma SplitAppend(beats: seq<Beat>, b: Beat)
    ensures Split(beats + [b]) == Extend(Split(beats), b)
  {
    assert (beats + [b])[..|beats|] == beats;
  }

  lemma SplitSingle(b: Beat)
    ensures Split([b]) == if b.last then Frames([Kept(b)], []) else Frames([], Kept(b))
  {
    assert [b][..0] == [];
    assert Split([b][..0]) == Frames([], []);
    assert [] + Kept(b) == Kept(b);
  }

  /** A beat stream cut behind every tlast: complete frames of beats, and the beats of the open one. */
  datatype BeatFrames = BeatFrames(complete: seq<seq<Beat>>, open: seq<Beat>)

  function CutFrames(beats: seq<Beat>): (f: BeatFrames) {
    if beats == [] then BeatFrames([], [])
    else
      var f := CutFrames(beats[..|beats| - 1]);
      var b := beats[|beats| - 1];
      if b.last then BeatFrames(f.complete + [f.open + [b]], []) else BeatFrames(f.complete, f.open + [b])
  }

  lemma CutFramesAppend(beats: seq<Beat>, b: Beat)
    ensures var f := CutFrames(beats);
            CutFrames(beats + [b]) ==
            if b.last then BeatFrames(f.complete + [f.open + [b]], []) else BeatFrames(f.complete, f.open + [b])
  {
    assert (beats + [b])[..|beats|] == beats;
  }

  lemma {:induction false} SplitConcat(x: seq<Beat>, y: seq<Beat>)
    requires Split(x).open == []
    ensures Split(x + y) == Frames(Split(x).complete + Split(y).complete, Split(y).open)
  {
    if y == [] {
      assert x + y == x;
    } else {
      var n := |y| - 1;
      SplitConcat(x, y[..n]);
      SplitAppend(x + y[..n], y[n]);
      SplitAppend(y[..n], y[n]);
      assert y == y[..n] + [y[n]];
      assert x + y == x + y[..n] + [y[n]];
    }
  }

  lemma SliceOfSlice<X>(x: seq<X>, from: nat, len: nat, inner: nat, n: nat)
    requires from + len <= |x| && inner + n <= len
    ensures x[from..from + len][inner..inner + n] == x[from + inner..from + inner + n]
  {
    var a, b := x[from..from + len][inner..inner + n], x[from + inner..from + inner + n];
    assert forall k :: 0 <= k < n ==> a[k] == b[k];
  }

  lemma SliceConcat<T>(s: seq<T>, a: nat, b: nat, c: nat)
    requires a <= b <= c <= |s|
    ensures s[a..b] + s[b..c] == s[a..c]
  {
  }
}
