/** Numbers on byte lanes, lowest byte first. */
module LittleEndian {
  import opened Stream

  function Encode(x: nat, n: nat): (s: seq<Byte>)
    ensures |s| == n
  {
    if n == 0 then [] else [x % 256] + Encode(x / 256, n - 1)
  }

  function Decode(s: seq<Byte>): (x: nat) {
    if s == [] then 0 else s[0] + 256 * Decode(s[1..])
  }

  function Range(n: nat): (r: nat)
    ensures r > 0
  {
    if n == 0 then 1 else 256 * Range(n - 1)
  }

  lemma {:induction false} DecodeEncode(x: nat, n: nat)
    requires x < Range(n)
    ensures Decode(Encode(x, n)) == x
  {
    if n != 0 {
      DecodeEncode(x / 256, n - 1);
    }
  }

  lemma {:induction false} EncodePrefix(x: nat, n: nat, k: nat)
    requires k <= n
    ensures Encode(x, n)[..k] == Encode(x, k)
  {
    if k != 0 {
      EncodePrefix(x / 256, n - 1, k - 1);
      assert Encode(x, n)[..k] == [x % 256] + Encode(x / 256, n - 1)[..k - 1];
    }
  }

  /** A small number is found again in the low lanes of a wider field. */
  lemma DecodeLow(x: nat, n: nat, k: nat)
    requires k <= n && x < Range(k)
    ensures Decode(Encode(x, n)[..k]) == x
  {
    EncodePrefix(x, n, k);
    DecodeEncode(x, k);
  }

  lemma {:induction false} RangeGrows(k: nat, n: nat)
    requires k <= n
    ensures Range(k) <= Range(n)
  {
    if k < n {
      RangeGrows(k, n - 1);
    }
  }

  lemma Ranges()
    ensures Range(2) == 0x1_0000 && Range(4) == 0x1_0000_0000
  {
    assert Range(1) == 256;
    assert Range(2) == 0x1_0000;
    assert Range(3) == 0x100_0000;
  }
}
