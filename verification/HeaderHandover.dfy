/**
 The header channel of the header remover: when the headers its consumer takes are those of the packets.
 The registers go on sampling the stream between packets, also while a header waits in them.
 */
module HeaderHandover {
  import opened LittleEndian
  import opened Stream
  import opened HeaderRemover

  /** The headers handed over, and the one on show. */
  function Shown(r: Registers, h: History): (headers: seq<Header>) {
    h.taken + if r.hdrValid then [r.hdr] else []
  }

  /** A header that still waits when its packet is over has to be taken in this cycle. */
  predicate Due(r: Registers) { r.hdrValid && !r.inPayload }

  /** Every header is taken between its fifth word and the first cycle behind its packet's last word. */
  ghost predicate OnTime(inputs: seq<Input>)
    requires LegalRun(inputs)
  {
    inputs == [] ||
    var n := |inputs| - 1;
    OnTime(inputs[..n]) && (Due(Run(inputs[..n]).0) ==> inputs[n].hdrReady)
  }

  /** Then the headers handed over are those of the packets, in order, each once. */
  lemma {:induction false} OnTimeIsRight(inputs: seq<Input>)
    requires LegalRun(inputs) && OnTime(inputs)
    ensures var (r, h) := Run(inputs);
            Shown(r, h) == h.headers && (Due(r) ==> r.headerCount == 0)
  {
    if inputs != [] {
      var n := |inputs| - 1;
      OnTimeIsRight(inputs[..n]);
      var (r, h) := Run(inputs[..n]);
      RightStep(r, inputs[n], h);
    }
  }

  lemma RightStep(r: Registers, i: Input, h: History)
    requires LegalInput(i) && Shown(r, h) == h.headers && (Due(r) ==> i.hdrReady)
    ensures var r', h' := Next(r, i), Record(r, i, h);
            Shown(r', h') == h'.headers && (Due(r') ==> r'.headerCount == 0)
  {
  }

  // ---------------------------------------------------------------------------------------------
  // The same handshakes with other data
  // ---------------------------------------------------------------------------------------------

  datatype Lanes = Lanes(data: seq<Byte>, keep: seq<bool>)

  ghost predicate LegalFill(fill: seq<Lanes>, n: nat) {
    |fill| == n && forall k :: 0 <= k < n ==> |fill[k].data| == |fill[k].keep| == WORD
  }

  function Fill(i: Input, l: Lanes): Input { i.(beat := Beat(l.data, l.keep, i.beat.last)) }

  /** The inputs with their handshakes and tlast, but the given data. */
  function Filled(inputs: seq<Input>, fill: seq<Lanes>): (r: seq<Input>)
    requires LegalFill(fill, |inputs|)
    ensures |r| == |inputs| && LegalRun(r)
    ensures forall k :: 0 <= k < |inputs| ==> r[k] == Fill(inputs[k], fill[k])
  {
    seq(|inputs|, k requires 0 <= k < |inputs| => Fill(inputs[k], fill[k]))
  }

  predicate SameControl(r: Registers, s: Registers) {
    r.inPayload == s.inPayload && r.headerCount == s.headerCount && r.hdrValid == s.hdrValid
  }

  /** Data has no influence on the handshakes. */
  lemma {:induction false} ControlIgnoresData(inputs: seq<Input>, fill: seq<Lanes>)
    requires LegalRun(inputs) && LegalFill(fill, |inputs|)
    ensures SameControl(Run(inputs).0, Run(Filled(inputs, fill)).0)
    ensures OnTime(inputs) <==> OnTime(Filled(inputs, fill))
  {
    if inputs != [] {
      var n := |inputs| - 1;
      ControlIgnoresData(inputs[..n], fill[..n]);
      assert Filled(inputs, fill)[..n] == Filled(inputs[..n], fill[..n]);
    }
  }

  // ---------------------------------------------------------------------------------------------
  // A header that is left too long
  // ---------------------------------------------------------------------------------------------

  /** Data that spells the length zero before cycle `k` and the length one from then on. */
  function Telling(n: nat, k: nat): (fill: seq<Lanes>)
    ensures LegalFill(fill, n)
  {
    seq(n, j => Lanes([if j < k then 0 else 1, 0, 0, 0, 0, 0, 0, 0], Mask(WORD, WORD)))
  }

  ghost predicate Tells(inputs: seq<Input>, k: nat) {
    forall j :: 0 <= j < |inputs| ==>
      |inputs[j].beat.data| == WORD && Low(inputs[j].beat, 2) == if j < k then 0 else 1
  }

  lemma TellingTells(inputs: seq<Input>, k: nat)
    ensures Tells(Filled(inputs, Telling(|inputs|, k)), k)
  {
    var told := Filled(inputs, Telling(|inputs|, k));
    forall j | 0 <= j < |told|
      ensures |told[j].beat.data| == WORD && Low(told[j].beat, 2) == if j < k then 0 else 1
    {
      LowOfSmall(told[j].beat, if j < k then 0 else 1);
    }
  }

  lemma LowOfSmall(b: Beat, x: Byte)
    requires b.data == [x, 0, 0, 0, 0, 0, 0, 0]
    ensures Low(b, 2) == x
  {
    var pair := b.data[..2];
    assert pair == [x, 0] && pair[1..] == [0] && pair[1..][1..] == [];
    assert Decode(pair[1..]) == 0;
  }

  /** The n-th header has not come out, and will not: it shows another length, or is lost. */
  ghost predicate Spoilt(r: Registers, h: History, n: nat) {
    && 0 < n <= |h.headers| && h.headers[n - 1].length == 0
    && (|| (|h.headers| == n && |h.taken| == n - 1 && r.hdrValid && r.hdr.length == 1)
        || (n <= |h.taken| && h.taken[n - 1].length == 1)
        || |Shown(r, h)| < |h.headers|)
  }

  lemma SpoiltIsWrong(r: Registers, h: History, n: nat)
    requires Spoilt(r, h, n)
    ensures Shown(r, h) != h.headers
  {
    if n <= |h.taken| && h.taken[n - 1].length == 1 {
      assert Shown(r, h)[n - 1] == h.taken[n - 1];
    }
  }

  lemma SpoiltStays(r: Registers, i: Input, h: History, n: nat)
    requires LegalInput(i) && Low(i.beat, 2) == 1 && Spoilt(r, h, n)
    ensures Spoilt(Next(r, i), Record(r, i, h), n)
  {
  }

  /** The first cycle in which a header that is due is not taken spoils it. */
  lemma LateSpoils(r: Registers, i: Input, h: History)
    requires LegalInput(i) && Low(i.beat, 2) == 1
    requires Shown(r, h) == h.headers && Due(r) && r.headerCount == 0 && !i.hdrReady
    requires h.headers[|h.headers| - 1].length == 0
    ensures Spoilt(Next(r, i), Record(r, i, h), |h.headers|)
  {
  }

  ghost predicate ZeroLengths(r: Registers, h: History) {
    r.hdr.length == 0 && forall j :: 0 <= j < |h.headers| ==> h.headers[j].length == 0
  }

  lemma {:induction false} LengthsAreZero(inputs: seq<Input>, k: nat)
    requires LegalRun(inputs) && Tells(inputs, k) && |inputs| <= k
    ensures ZeroLengths(Run(inputs).0, Run(inputs).1)
  {
    if inputs != [] {
      LengthsAreZero(inputs[..|inputs| - 1], k);
    }
  }

  lemma {:induction false} StaysSpoilt(inputs: seq<Input>, k: nat, n: nat)
    requires LegalRun(inputs) && Tells(inputs, k) && k < |inputs|
    requires Spoilt(Run(inputs[..k + 1]).0, Run(inputs[..k + 1]).1, n)
    ensures Spoilt(Run(inputs).0, Run(inputs).1, n)
  {
    var m := |inputs| - 1;
    if m == k {
      assert inputs[..k + 1] == inputs;
    } else {
      assert inputs[..m][..k + 1] == inputs[..k + 1];
      StaysSpoilt(inputs[..m], k, n);
      var (r, h) := Run(inputs[..m]);
      SpoiltStays(r, inputs[m], h, n);
    }
  }

  /** The first cycle that was too late. */
  lemma {:induction false} FirstLate(inputs: seq<Input>) returns (k: nat)
    requires LegalRun(inputs) && !OnTime(inputs)
    ensures k < |inputs| && OnTime(inputs[..k]) && Due(Run(inputs[..k]).0) && !inputs[k].hdrReady
  {
    var n := |inputs| - 1;
    if OnTime(inputs[..n]) {
      k := n;
    } else {
      k := FirstLate(inputs[..n]);
      assert inputs[..n][..k] == inputs[..k];
    }
  }

  /** With telling data, a run that is not on time shows a wrong header in the end. */
  lemma LateIsWrong(inputs: seq<Input>, k: nat)
    requires LegalRun(inputs) && Tells(inputs, k) && k < |inputs|
    requires OnTime(inputs[..k]) && Due(Run(inputs[..k]).0) && !inputs[k].hdrReady
    ensures var (r, h) := Run(inputs); Shown(r, h) != h.headers
  {
    var (r, h) := Run(inputs[..k]);
    OnTimeIsRight(inputs[..k]);
    LengthsAreZero(inputs[..k], k);
    assert Shown(r, h)[|h.headers| - 1] == r.hdr;
    LateSpoils(r, inputs[k], h);
    assert inputs[..k + 1][..k] == inputs[..k];
    StaysSpoilt(inputs, k, |h.headers|);
    SpoiltIsWrong(Run(inputs).0, Run(inputs).1, |h.headers|);
  }

  /**
   Exactly the handshakes that are on time are right: whatever the data, the headers handed over and
   the one on show are those of the packets, in order, each once.
   */
  lemma HeadersAreRightIff(inputs: seq<Input>)
    requires LegalRun(inputs)
    ensures OnTime(inputs) <==>
            forall fill :: LegalFill(fill, |inputs|) ==>
              Shown(Run(Filled(inputs, fill)).0, Run(Filled(inputs, fill)).1) == Run(Filled(inputs, fill)).1.headers
  {
    if OnTime(inputs) {
      forall fill | LegalFill(fill, |inputs|)
        ensures Shown(Run(Filled(inputs, fill)).0, Run(Filled(inputs, fill)).1) == Run(Filled(inputs, fill)).1.headers
      {
        ControlIgnoresData(inputs, fill);
        OnTimeIsRight(Filled(inputs, fill));
      }
    } else {
      var k := FirstLate(inputs);
      var fill := Telling(|inputs|, k);
      var told := Filled(inputs, fill);
      ToldIsLate(inputs, fill, k);
      TellingTells(inputs, k);
      LateIsWrong(told, k);
    }
  }

  lemma ToldIsLate(inputs: seq<Input>, fill: seq<Lanes>, k: nat)
    requires LegalRun(inputs) && LegalFill(fill, |inputs|) && k < |inputs|
    requires OnTime(inputs[..k]) && Due(Run(inputs[..k]).0) && !inputs[k].hdrReady
    ensures var told := Filled(inputs, fill);
            OnTime(told[..k]) && Due(Run(told[..k]).0) && !told[k].hdrReady
  {
    assert Filled(inputs, fill)[..k] == Filled(inputs[..k], fill[..k]);
    ControlIgnoresData(inputs[..k], fill[..k]);
  }

  /**
   The shortest failing run: five header words, one payload word that ends the packet, and one idle
   cycle, with a consumer that is not ready. Data is zero, but for the idle line, which shows a one.
   */
  function LateExample(): (inputs: seq<Input>)
    ensures |inputs| == 7 && LegalRun(inputs) && Tells(inputs, 6)
  {
    var handshakes := seq(7, k => Input(k < 6, Beat([], [], k == 5), true, false));
    TellingTells(handshakes, 6);
    Filled(handshakes, Telling(7, 6))
  }

  lemma {:induction false} ExampleControl(n: nat)
    requires n <= 6
    ensures var r := Run(LateExample()[..n]).0;
            && r.inPayload == (n == 5) && r.hdrValid == (n >= 5)
            && (n <= 5 ==> r.headerCount == n)
    ensures OnTime(LateExample()[..n])
  {
    if n != 0 {
      ExampleControl(n - 1);
      assert LateExample()[..n][..n - 1] == LateExample()[..n - 1];
    }
  }

  /** There the header on show has a length that is not the packet's. */
  lemma LateExampleIsWrong()
    ensures var (r, h) := Run(LateExample());
            !OnTime(LateExample()) && Shown(r, h) != h.headers
  {
    ExampleControl(6);
    assert !LateExample()[6].hdrReady;
    LateIsWrong(LateExample(), 6);
  }
}
