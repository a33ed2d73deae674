/** Byte memory, and what the data channel of a burst does to it. */
module Memory {
  import opened Stream
  import opened BurstPlan
  import opened Arithmetic

  /** `memory` with `bytes` stored at `addr`. */
  function Overwrite(memory: seq<Byte>, addr: int, bytes: seq<Byte>): (m: seq<Byte>)
    ensures |m| == |memory|
  {
    seq(|memory|, i requires 0 <= i < |memory| => if addr <= i < addr + |bytes| then bytes[i - addr] else memory[i])
  }

  /** `memory` after a slave stored the strobed lanes of one beat at `addr`. */
  function WriteLanes(memory: seq<Byte>, addr: int, b: Beat): (m: seq<Byte>)
    ensures |m| == |memory|
  {
    seq(|memory|, i requires 0 <= i < |memory| =>
      if 0 <= i - addr < |b.data| && i - addr < |b.keep| && b.keep[i - addr] then b.data[i - addr] else memory[i])
  }

  lemma WriteMasked(memory: seq<Byte>, addr: int, b: Beat, k: nat)
    requires k <= |b.data| && b.keep == Mask(|b.data|, k)
    ensures WriteLanes(memory, addr, b) == Overwrite(memory, addr, b.data[..k])
  {
  }

  lemma OverwriteNothing(memory: seq<Byte>, addr: int)
    ensures Overwrite(memory, addr, []) == memory
  {
  }

  lemma OverwriteAppend(memory: seq<Byte>, addr: int, x: seq<Byte>, y: seq<Byte>)
    ensures Overwrite(Overwrite(memory, addr, x), addr + |x|, y) == Overwrite(memory, addr, x + y)
  {
  }

  /** The memory after a slave stored `beats`, the k-th at `addrs[k]`. */
  function SlaveMemory(memory: seq<Byte>, addrs: seq<nat>, beats: seq<Beat>): (m: seq<Byte>)
    requires |beats| <= |addrs|
    ensures |m| == |memory|
  {
    if beats == [] then memory
    else
      var n := |beats| - 1;
      WriteLanes(SlaveMemory(memory, addrs, beats[..n]), addrs[n], beats[n])
  }

  lemma SlaveMemoryAppend(memory: seq<Byte>, addrs: seq<nat>, beats: seq<Beat>, b: Beat)
    requires |beats| < |addrs|
    ensures SlaveMemory(memory, addrs, beats + [b]) == WriteLanes(SlaveMemory(memory, addrs, beats), addrs[|beats|], b)
  {
    assert (beats + [b])[..|beats|] == beats;
  }

  lemma {:induction false} SlaveMemoryIgnoresLater(memory: seq<Byte>, addrs: seq<nat>, more: seq<nat>, beats: seq<Beat>)
    requires |beats| <= |addrs|
    ensures SlaveMemory(memory, addrs + more, beats) == SlaveMemory(memory, addrs, beats)
  {
    if beats != [] {
      SlaveMemoryIgnoresLater(memory, addrs, more, beats[..|beats| - 1]);
    }
  }

  /** The start of the beat that holds `addr`; the engines mask descriptor addresses with ADDR_MASK. */
  function Aligned(bus: Bus, addr: nat): (r: nat)
    requires bus.Valid()
    ensures r % bus.width == 0 && r <= addr < r + bus.width
  {
    var r := addr - addr % bus.width;
    assert r == addr / bus.width * bus.width && r >= 0 by {
      QuotientIsMonotone(0, addr, bus.width);
      SmallQuotient(0, bus.width);
      assert addr / bus.width * bus.width >= 0;
    }
    MultipleIsDivisible(bus.width, addr / bus.width);
    r
  }

  /** The word a slave returns for a beat at `addr`. */
  ghost predicate ReadsFrom(memory: seq<Byte>, addr: nat, data: seq<Byte>) {
    addr + |data| <= |memory| && data == memory[addr..addr + |data|]
  }
}
