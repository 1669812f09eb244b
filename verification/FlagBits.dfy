/** Flag bits packed eight to a byte, least significant bit first. */
module FlagBits {
  /** The value of 1 << i in a byte. */
  function Mask(i: nat): bv8
    requires i < 8
  {
    if i < 4 then
      if i < 2 then if i == 0 then 0x01 else 0x02
      else if i == 2 then 0x04 else 0x08
    else
      if i < 6 then if i == 4 then 0x10 else 0x20
      else if i == 6 then 0x40 else 0x80
  }

  lemma MaskIsShift(i: nat)
    requires i < 8
    ensures Mask(i) == (1 as bv8) << i
  {
  }

  predicate Test(b: bv8, i: nat)
    requires i < 8
  {
    b & Mask(i) != 0
  }

  lemma SettingBit(b: bv8, i: nat, j: nat)
    requires i < 8 && j < 8
    ensures Test(b | Mask(i), j) == (i == j || Test(b, j))
  {
    hide Mask;
    SettingMask(b, Mask(i), Mask(j));
    if i != j {
      MasksDisjoint(i, j);
    } else {
      MaskIsBit(i);
    }
  }

  lemma SettingMask(b: bv8, m: bv8, k: bv8)
    ensures m & k == 0 ==> (b | m) & k == b & k
    ensures m == k ==> (b | m) & k == m
  {
  }

  lemma MaskIsBit(i: nat)
    requires i < 8
    ensures Mask(i) != 0
  {
  }

  lemma MasksDisjoint(i: nat, j: nat)
    requires i < 8 && j < 8 && i != j
    ensures Mask(i) & Mask(j) == 0
  {
  }

  /** The bits of a byte string, eight for each byte. */
  function Unpack(bytes: seq<bv8>): (bits: seq<bool>)
    ensures |bits| == 8 * |bytes|
  {
    seq(8 * |bytes|, p requires 0 <= p < 8 * |bytes| => Test(bytes[p / 8], p % 8))
  }

  /** The number that eight bits make, the first one counting least. */
  function ByteValue(bits: seq<bool>): nat
    requires |bits| == 8
  {
    (if bits[0] then 1 else 0) + (if bits[1] then 2 else 0) + (if bits[2] then 4 else 0) + (if bits[3] then 8 else 0) +
    (if bits[4] then 16 else 0) + (if bits[5] then 32 else 0) + (if bits[6] then 64 else 0) +
    (if bits[7] then 128 else 0)
  }

  lemma ByteIsValue(b: bv8, bits: seq<bool>)
    requires |bits| == 8 && forall i | 0 <= i < 8 :: bits[i] == Test(b, i)
    ensures b as nat == ByteValue(bits)
  {
    assert bits[0] == (b & 0x01 != 0) && bits[1] == (b & 0x02 != 0);
    assert bits[2] == (b & 0x04 != 0) && bits[3] == (b & 0x08 != 0);
    assert bits[4] == (b & 0x10 != 0) && bits[5] == (b & 0x20 != 0);
    assert bits[6] == (b & 0x40 != 0) && bits[7] == (b & 0x80 != 0);
  }

  /** Byte k holds the bits from 8k on, the first one as its lowest bit. */
  lemma UnpackedByte(bytes: seq<bv8>, k: nat)
    requires k < |bytes|
    ensures bytes[k] as nat == ByteValue(Unpack(bytes)[8 * k..8 * k + 8])
  {
    hide Mask, Test, ByteValue;
    var bits := Unpack(bytes)[8 * k..8 * k + 8];
    forall i | 0 <= i < 8
      ensures bits[i] == Test(bytes[k], i)
    {
      assert (8 * k + i) / 8 == k && (8 * k + i) % 8 == i;
    }
    ByteIsValue(bytes[k], bits);
  }

  /** Bits filled up with zeros to whole bytes. */
  function Padded(bits: seq<bool>): (r: seq<bool>)
    ensures |r| == 8 * ((|bits| + 7) / 8)
    ensures bits <= r
  {
    bits + seq(8 * ((|bits| + 7) / 8) - |bits|, _ => false)
  }

  /** Bytes are determined by their bits. */
  lemma UnpackInjective(a: seq<bv8>, b: seq<bv8>)
    requires Unpack(a) == Unpack(b)
    ensures a == b
  {
    assert |a| == |b|;
    forall k | 0 <= k < |a|
      ensures a[k] == b[k]
    {
      forall i: nat | i < 8
        ensures Test(a[k], i) == Test(b[k], i)
      {
        assert Unpack(a)[8 * k + i] == Unpack(b)[8 * k + i];
        assert (8 * k + i) / 8 == k && (8 * k + i) % 8 == i;
      }
      SameByte(a[k], b[k]);
    }
  }

  lemma SameByte(a: bv8, b: bv8)
    requires forall i: nat | i < 8 :: Test(a, i) == Test(b, i)
    ensures a == b
  {
    assert Test(a, 0) == Test(b, 0) && Test(a, 1) == Test(b, 1) && Test(a, 2) == Test(b, 2) && Test(a, 3) == Test(b, 3);
    assert Test(a, 4) == Test(b, 4) && Test(a, 5) == Test(b, 5) && Test(a, 6) == Test(b, 6) && Test(a, 7) == Test(b, 7);
  }

  /** The writing side of serialization: bit p goes to bit p % 8 of byte p / 8. */
  method Pack(vBits: seq<bool>) returns (vBytes: seq<bv8>)
    ensures Unpack(vBytes) == Padded(vBits)
    ensures |vBytes| == (|vBits| + 7) / 8
    ensures forall k | 0 <= k < |vBytes| :: vBytes[k] as nat == ByteValue(Padded(vBits)[8 * k..8 * k + 8])
  {
    hide ByteValue, Unpack;
    var nBytes := (|vBits| + 7) / 8;
    vBytes := seq(nBytes, _ => 0);
    ZeroBytes(vBytes);
    for p := 0 to |vBits|
      invariant |vBytes| == nBytes
      invariant Unpack(vBytes) == vBits[..p] + seq(8 * nBytes - p, _ => false)
    {
      PackStep(vBytes, vBits, p);
      if vBits[p] {
        vBytes := vBytes[p / 8 := vBytes[p / 8] | Mask(p % 8)];
      }
    }
    assert vBits[..|vBits|] == vBits;
    assert Unpack(vBytes) == Padded(vBits);
    forall k | 0 <= k < |vBytes|
      ensures vBytes[k] as nat == ByteValue(Padded(vBits)[8 * k..8 * k + 8])
    {
      UnpackedByte(vBytes, k);
    }
  }

  lemma ZeroBytes(bytes: seq<bv8>)
    requires forall k | 0 <= k < |bytes| :: bytes[k] == 0
    ensures Unpack(bytes) == seq(8 * |bytes|, _ => false)
  {
    hide Mask;
  }

  lemma PackStep(bytes: seq<bv8>, bits: seq<bool>, p: nat)
    requires p < |bits| && |bytes| == (|bits| + 7) / 8
    requires Unpack(bytes) == bits[..p] + seq(8 * |bytes| - p, _ => false)
    ensures p / 8 < |bytes|
    ensures Unpack(if bits[p] then bytes[p / 8 := bytes[p / 8] | Mask(p % 8)] else bytes) ==
            bits[..p + 1] + seq(8 * |bytes| - (p + 1), _ => false)
  {
    var next := if bits[p] then bytes[p / 8 := bytes[p / 8] | Mask(p % 8)] else bytes;
    forall q | 0 <= q < 8 * |bytes|
      ensures Unpack(next)[q] == (q <= p && bits[q])
    {
      hide Mask;
      assert Unpack(bytes)[q] == (q < p && bits[q]);
      SettingBit(bytes[q / 8], p % 8, q % 8);
      assert p / 8 == q / 8 && p % 8 == q % 8 ==> p == q;
    }
  }

  lemma BitOfByte(bytes: seq<bv8>, p: nat)
    requires p < 8 * |bytes|
    ensures p / 8 < |bytes| && Unpack(bytes)[p] == (bytes[p / 8] & Mask(p % 8) != 0)
  {
    hide Mask;
  }

  /** The reading side of serialization. */
  method ReadBits(vBytes: seq<bv8>) returns (vBits: seq<bool>)
    ensures vBits == Unpack(vBytes)
    ensures forall k | 0 <= k < |vBytes| :: vBytes[k] as nat == ByteValue(vBits[8 * k..8 * k + 8])
  {
    hide *;
    vBits := seq(|vBytes| * 8, _ => false);
    for p := 0 to |vBits|
      invariant |vBits| == |vBytes| * 8
      invariant forall q | 0 <= q < p :: vBits[q] == Unpack(vBytes)[q]
    {
      BitOfByte(vBytes, p);
      vBits := vBits[p := vBytes[p / 8] & Mask(p % 8) != 0];
    }
    assert vBits == Unpack(vBytes);
    forall k | 0 <= k < |vBytes|
      ensures vBytes[k] as nat == ByteValue(vBits[8 * k..8 * k + 8])
    {
      UnpackedByte(vBytes, k);
    }
  }
}
