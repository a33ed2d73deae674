/** AXI responses and the DMA error codes the engines derive from them. */
module AxiResponse {

  datatype Resp = Okay | ExOkay | SlvErr | DecErr

  datatype Error = NoError | ReadSlvErr | ReadDecErr | WriteSlvErr | WriteDecErr

  predicate IsError(r: Resp) { r.SlvErr? || r.DecErr? }

  function ReadErrorOf(r: Resp): (e: Error)
    ensures e.NoError? <==> !IsError(r)
  {
    if r.SlvErr? then ReadSlvErr else if r.DecErr? then ReadDecErr else NoError
  }

  function WriteErrorOf(r: Resp): (e: Error)
    ensures e.NoError? <==> !IsError(r)
  {
    if r.SlvErr? then WriteSlvErr else if r.DecErr? then WriteDecErr else NoError
  }

  /** The latest error response, or Okay when there was none. */
  function Worst(resps: seq<Resp>): (r: Resp)
    ensures IsError(r) <==> exists k :: 0 <= k < |resps| && IsError(resps[k])
    ensures !IsError(r) ==> r == Okay
  {
    if resps == [] then Okay
    else
      var earlier := resps[..|resps| - 1];
      assert forall k :: 0 <= k < |earlier| ==> resps[k] == earlier[k];
      if IsError(resps[|resps| - 1]) then resps[|resps| - 1] else Worst(earlier)
  }

  lemma WorstAppend(x: seq<Resp>, r: Resp)
    ensures Worst(x + [r]) == if IsError(r) then r else Worst(x)
  {
    assert (x + [r])[..|x|] == x;
  }
}
