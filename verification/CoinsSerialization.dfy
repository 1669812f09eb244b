/** The compact byte format of one transaction's unspent outputs. */
module CoinsSerializations {
  import opened Arithmetic
  import opened Coins
  import opened Sequences
  import opened Transactions

  type Bytes = seq<Byte>

  // ---------------------------------------------------------------- variable-length integers

  /** The lowest 7 bits, also of a negative number. */
  function Low(n: int): (b: Byte)
    ensures b < 0x80
    ensures 0 <= n <= 0x7F ==> b == n
  {
    n % 0x80
  }

  /** The same with the mark that more bytes follow. */
  function Marked(n: int): (b: Byte)
    ensures b == 0x80 + Low(n)
  {
    0x80 + n % 0x80
  }

  /** The bits above the lowest 7, less one. */
  function High(n: int): (h: nat)
    requires n > 0x7F
    ensures h < n && n == (h + 1) * 0x80 + Low(n)
  {
    n / 0x80 - 1
  }

  /** The bytes before the last one. */
  function PutHigh(n: nat): Bytes {
    if n <= 0x7F then [Marked(n)] else PutHigh(High(n)) + [Marked(n)]
  }

  /** A negative number is cut to its lowest 7 bits. */
  function PutVarInt(n: int): Bytes {
    if n <= 0x7F then [Low(n)] else PutHigh(High(n)) + [Low(n)]
  }

  function GetVarInt(s: Bytes, n: nat): Option<(nat, Bytes)>
    decreases |s|
  {
    if s == [] then None
    else if s[0] >= 0x80 then GetVarInt(s[1..], n * 0x80 + Low(s[0]) + 1)
    else Some((n * 0x80 + Low(s[0]), s[1..]))
  }

  lemma MarkedIs(n: nat)
    ensures Low(Marked(n)) == Low(n) && Low(Low(n)) == Low(n)
  {
  }

  lemma {:induction false} GetHigh(n: nat, rest: Bytes)
    ensures GetVarInt(PutHigh(n) + rest, 0) == GetVarInt(rest, n + 1)
    decreases n
  {
    hide Low, Marked, High;
    MarkedIs(n);
    var last := [Marked(n)];
    assert (last + rest)[1..] == rest;
    if n > 0x7F {
      assert PutHigh(n) + rest == PutHigh(High(n)) + (last + rest);
      GetHigh(High(n), last + rest);
    }
  }

  /** A number that is not negative is read back, and nothing after it is touched. */
  lemma VarIntRoundTrip(n: int, rest: Bytes)
    ensures GetVarInt(PutVarInt(n) + rest, 0) == Some((if n >= 0 then n else Low(n), rest))
  {
    hide Low, Marked, High;
    MarkedLow(n);
    var last := [Low(n)];
    assert (last + rest)[1..] == rest;
    if n > 0x7F {
      assert PutVarInt(n) + rest == PutHigh(High(n)) + (last + rest);
      GetHigh(High(n), last + rest);
    }
  }

  lemma MarkedLow(n: int)
    ensures Low(Low(n)) == Low(n)
  {
  }

  method WriteVarInt(n0: int) returns (os: Bytes)
    ensures os == PutVarInt(n0)
  {
    hide Low, Marked, High, PutVarInt, PutHigh;
    var tmp: Bytes := [];
    var n := n0;
    NothingPut(n);
    while n > 0x7F
      invariant n <= n0 && (tmp == [] ==> n == n0) && (tmp != [] ==> n >= 0)
      invariant PutVarInt(n0) == Put(n, tmp == []) + Reversed(tmp)
      decreases n
    {
      PutStep(n, tmp);
      tmp := tmp + [if tmp != [] then Marked(n) else Low(n)];
      n := High(n);
    }
    PutStep(n, tmp);
    tmp := tmp + [if tmp != [] then Marked(n) else Low(n)];
    os := FromTheEnd(tmp);
  }

  /** What is still to be put in front. */
  function Put(n: int, first: bool): Bytes
    requires first || n >= 0
  {
    if first then PutVarInt(n) else PutHigh(n)
  }

  lemma NothingPut(n: int)
    ensures Put(n, true) + Reversed([]) == PutVarInt(n)
  {
  }

  lemma PutStep(n: int, tmp: Bytes)
    requires tmp == [] || n >= 0
    ensures var last := if tmp != [] then Marked(n) else Low(n);
      Put(n, tmp == []) + Reversed(tmp) == (if n > 0x7F then Put(High(n), false) else []) + Reversed(tmp + [last])
  {
    hide Low, Marked, High;
    ReversedAppend(tmp, if tmp != [] then Marked(n) else Low(n));
  }

  method FromTheEnd(tmp: Bytes) returns (os: Bytes)
    ensures os == Reversed(tmp)
  {
    var len := |tmp|;
    os := [];
    assert tmp[..len] == tmp;
    while len > 0
      invariant 0 <= len <= |tmp| && Reversed(tmp) == os + Reversed(tmp[..len])
    {
      assert tmp[..len] == tmp[..len - 1] + [tmp[len - 1]];
      ReversedAppend(tmp[..len - 1], tmp[len - 1]);
      os := os + [tmp[len - 1]];
      len := len - 1;
    }
  }

  // ---------------------------------------------------------------- the mask of unspent outputs

  predicate Unspent(vout: seq<TxOut>, i: nat) {
    i < |vout| && !vout[i].IsNull()
  }

  function Bit(f: bool, value: nat): nat {
    if f then value else 0
  }

  /** `k` outputs from `o` on as bits, the first one lowest. */
  function Packed(vout: seq<TxOut>, o: nat, k: nat): (n: nat)
    ensures n < Pow2(k)
    decreases k
  {
    if k == 0 then 0 else Bit(Unspent(vout, o), 1) + 2 * Packed(vout, o + 1, k - 1)
  }

  lemma ByteRange()
    ensures Pow2(8) == 0x100
  {
    assert Pow2(4) == 16;
  }

  /** Mask byte b: the outputs from 2 + 8b on. */
  function MaskByte(vout: seq<TxOut>, b: nat): Byte {
    ByteRange();
    Packed(vout, 2 + 8 * b, 8)
  }

  function MaskBytes(vout: seq<TxOut>, n: nat): Bytes {
    seq(n, b requires 0 <= b < n => MaskByte(vout, b))
  }

  predicate AnyUnspent(vout: seq<TxOut>, lo: nat, hi: nat) {
    exists i | lo <= i < hi :: Unspent(vout, i)
  }

  /** One past the last byte below `n` that is not zero. */
  function LastUsed(vout: seq<TxOut>, n: nat): (k: nat)
    ensures k <= n && (k > 0 ==> MaskByte(vout, k - 1) != 0)
    ensures forall b | k <= b < n :: MaskByte(vout, b) == 0
  {
    hide MaskByte;
    if n == 0 then 0 else if MaskByte(vout, n - 1) != 0 then n else LastUsed(vout, n - 1)
  }

  function NonZeros(s: Bytes): nat {
    if s == [] then 0 else NonZeros(s[..|s| - 1]) + if s[|s| - 1] != 0 then 1 else 0
  }

  /** How many mask bytes reach the end of the outputs. */
  function MaskLength(vout: seq<TxOut>): nat {
    if |vout| <= 2 then 0 else (|vout| - 2 + 7) / 8
  }

  function Mask(vout: seq<TxOut>): Bytes {
    MaskBytes(vout, LastUsed(vout, MaskLength(vout)))
  }

  lemma ByteIsUsed(vout: seq<TxOut>, b: nat)
    ensures AnyUnspent(vout, 2 + 8 * b, 10 + 8 * b) <==> MaskByte(vout, b) != 0
  {
    PackedUsed(vout, 2 + 8 * b, 8);
  }

  lemma {:induction false} PackedUsed(vout: seq<TxOut>, o: nat, k: nat)
    ensures AnyUnspent(vout, o, o + k) <==> Packed(vout, o, k) != 0
    decreases k
  {
    if k > 0 {
      PackedUsed(vout, o + 1, k - 1);
      if AnyUnspent(vout, o, o + k) && !Unspent(vout, o) {
        var i :| o <= i < o + k && Unspent(vout, i);
        assert AnyUnspent(vout, o + 1, o + k);
      }
      if AnyUnspent(vout, o + 1, o + k) {
        var i :| o + 1 <= i < o + k && Unspent(vout, i);
        assert AnyUnspent(vout, o, o + k);
      }
    }
  }

  /** Counts the mask bytes and those of them that are not zero. */
  method CalcMaskSize(vout: seq<TxOut>) returns (nBytes: nat, nNonzeroBytes: nat)
    ensures nBytes == |Mask(vout)| && nNonzeroBytes == NonZeros(Mask(vout))
  {
    hide MaskByte, AnyUnspent;
    var nLastUsedByte := 0;
    nNonzeroBytes := 0;
    var b := 0;
    while 2 + b * 8 < |vout|
      invariant b <= MaskLength(vout) && nLastUsedByte == LastUsed(vout, b)
      invariant nNonzeroBytes == NonZeros(MaskBytes(vout, b))
      decreases |vout| - b * 8
    {
      var fZero := ByteIsZero(vout, b);
      ByteIsUsed(vout, b);
      assert MaskBytes(vout, b + 1) == MaskBytes(vout, b) + [MaskByte(vout, b)];
      if !fZero {
        nLastUsedByte := b + 1;
        nNonzeroBytes := nNonzeroBytes + 1;
      }
      b := b + 1;
    }
    nBytes := nLastUsedByte;
    ZerosDoNotCount(vout, b, nLastUsedByte);
  }

  method ByteIsZero(vout: seq<TxOut>, b: nat) returns (fZero: bool)
    ensures fZero <==> !AnyUnspent(vout, 2 + 8 * b, 10 + 8 * b)
  {
    fZero := true;
    var i := 0;
    while i < 8 && 2 + b * 8 + i < |vout|
      invariant i <= 8 && (fZero <==> !AnyUnspent(vout, 2 + 8 * b, 2 + 8 * b + i))
    {
      OneMoreOutput(vout, 2 + 8 * b, 2 + 8 * b + i);
      if !vout[2 + b * 8 + i].IsNull() {
        fZero := false;
      }
      i := i + 1;
    }
  }

  lemma OneMoreOutput(vout: seq<TxOut>, lo: nat, hi: nat)
    requires lo <= hi
    ensures AnyUnspent(vout, lo, hi + 1) <==> AnyUnspent(vout, lo, hi) || Unspent(vout, hi)
  {
    assert Unspent(vout, hi) ==> AnyUnspent(vout, lo, hi + 1);
  }

  lemma {:induction false} ZerosDoNotCount(vout: seq<TxOut>, n: nat, k: nat)
    requires k <= n && forall b | k <= b < n :: MaskByte(vout, b) == 0
    ensures NonZeros(MaskBytes(vout, n)) == NonZeros(MaskBytes(vout, k))
    decreases n
  {
    hide MaskByte;
    if k < n {
      ZerosDoNotCount(vout, n - 1, k);
      assert MaskBytes(vout, n) == MaskBytes(vout, n - 1) + [MaskByte(vout, n - 1)];
    }
  }

  // ---------------------------------------------------------------- reading the mask

  /** Bytes up to and including the k-th one that is not zero. */
  function ReadMask(s: Bytes, k: nat): Option<(Bytes, Bytes)>
    decreases |s|
  {
    if k == 0 then Some(([], s))
    else if s == [] then None
    else
      var r := ReadMask(s[1..], if s[0] != 0 then k - 1 else k);
      if r == None then None else Some(([s[0]] + r.value.0, r.value.1))
  }

  function NonZerosFrom(s: Bytes): nat {
    if s == [] then 0 else (if s[0] != 0 then 1 else 0) + NonZerosFrom(s[1..])
  }

  lemma {:induction false} SameCount(s: Bytes, b: Byte)
    ensures NonZerosFrom(s + [b]) == NonZerosFrom(s) + if b != 0 then 1 else 0
    decreases |s|
  {
    if s != [] {
      assert (s + [b])[1..] == s[1..] + [b];
      SameCount(s[1..], b);
    }
  }

  lemma {:induction false} CountsAgree(s: Bytes)
    ensures NonZerosFrom(s) == NonZeros(s)
    decreases |s|
  {
    if s != [] {
      CountsAgree(s[..|s| - 1]);
      SameCount(s[..|s| - 1], s[|s| - 1]);
      assert s == s[..|s| - 1] + [s[|s| - 1]];
    }
  }

  /** Counting down the non-zero bytes stops exactly at the last byte of the mask, because that byte
      is not zero. */
  lemma {:induction false} ReadMaskStops(mask: Bytes, rest: Bytes)
    requires mask != [] ==> mask[|mask| - 1] != 0
    ensures ReadMask(mask + rest, NonZerosFrom(mask)) == Some((mask, rest))
    decreases |mask|
  {
    if mask == [] {
      assert mask + rest == rest;
    } else {
      assert (mask + rest)[1..] == mask[1..] + rest;
      ReadMaskStops(mask[1..], rest);
      if mask[1..] == [] {
        assert mask == [mask[0]];
      } else {
        AnyNonZero(mask[1..]);
      }
      assert mask == [mask[0]] + mask[1..];
    }
  }

  lemma {:induction false} AnyNonZero(s: Bytes)
    requires s != [] && s[|s| - 1] != 0
    ensures NonZerosFrom(s) > 0
    decreases |s|
  {
    if |s| > 1 {
      AnyNonZero(s[1..]);
    }
  }

  // ---------------------------------------------------------------- bits of the mask

  function Bits(ch: Byte): seq<bool> {
    seq(8, p requires 0 <= p < 8 => BitAt(ch, p))
  }

  /** Bit p of a number. */
  predicate BitAt(n: nat, p: nat)
    decreases p
  {
    if p == 0 then n % 2 == 1 else BitAt(n / 2, p - 1)
  }

  lemma {:induction false} PackedBits(vout: seq<TxOut>, o: nat, k: nat, p: nat)
    requires p < k
    ensures BitAt(Packed(vout, o, k), p) == Unspent(vout, o + p)
    decreases p
  {
    hide Unspent;
    if p > 0 {
      PackedBits(vout, o + 1, k - 1, p - 1);
      assert Packed(vout, o, k) / 2 == Packed(vout, o + 1, k - 1);
    }
  }

  lemma MaskBits(vout: seq<TxOut>, b: nat, p: nat)
    requires p < 8
    ensures BitAt(MaskByte(vout, b), p) == Unspent(vout, 2 + 8 * b + p)
  {
    PackedBits(vout, 2 + 8 * b, 8, p);
  }

  /** Which outputs the reader takes to be there. */
  function Available(first: bool, second: bool, mask: Bytes): seq<bool> {
    if mask == [] then [first, second] else Available(first, second, mask[..|mask| - 1]) + Bits(mask[|mask| - 1])
  }

  predicate Tells(avail: seq<bool>, vout: seq<TxOut>) {
    forall i | 0 <= i < |avail| :: avail[i] == Unspent(vout, i)
  }

  lemma {:induction false} MaskTells(vout: seq<TxOut>, n: nat)
    ensures var avail := Available(Unspent(vout, 0), Unspent(vout, 1), MaskBytes(vout, n));
      |avail| == 2 + 8 * n && Tells(avail, vout)
    decreases n
  {
    hide MaskByte, BitAt, Unspent;
    if n > 0 {
      MaskTells(vout, n - 1);
      var mask := MaskBytes(vout, n);
      assert mask[..n - 1] == MaskBytes(vout, n - 1);
      var o := 2 + 8 * (n - 1);
      forall i | o <= i < o + 8
        ensures Bits(mask[n - 1])[i - o] == Unspent(vout, i)
      {
        MaskBits(vout, n - 1, i - o);
      }
    }
  }

  lemma {:induction false} NoBits(p: nat)
    ensures !BitAt(0, p)
    decreases p
  {
    if p > 0 {
      NoBits(p - 1);
    }
  }

  /** No unspent output lies beyond the mask. */
  lemma BeyondMask(vout: seq<TxOut>, i: nat)
    requires i >= 2 + 8 * |Mask(vout)|
    ensures !Unspent(vout, i)
  {
    hide Packed, BitAt;
    var b, p := (i - 2) / 8, (i - 2) % 8;
    if i < |vout| {
      assert MaskByte(vout, b) == 0;
      NoBits(p);
      MaskBits(vout, b, p);
    }
  }

  // ---------------------------------------------------------------- writing and reading coins

  /** How a single output is written and read; scripts and amounts have a format of their own. */
  datatype OutCodec = OutCodec(put: TxOut -> Bytes, get: Bytes -> Option<(TxOut, Bytes)>)
  {
    ghost predicate Works() {
      forall out, rest :: get(put(out) + rest) == Some((out, rest))
    }
  }

  /** The outputs that are still there, in order. */
  function PutOuts(f: OutCodec, vout: seq<TxOut>): Bytes {
    if vout == [] then [] else (if vout[0].IsNull() then [] else f.put(vout[0])) + PutOuts(f, vout[1..])
  }

  function GetOuts(f: OutCodec, avail: seq<bool>, s: Bytes): Option<(seq<TxOut>, Bytes)> {
    if avail == [] then Some(([], s))
    else
      var first := if avail[0] then f.get(s) else Some((NULL_OUT, s));
      if first == None then None
      else
        var r := GetOuts(f, avail[1..], first.value.1);
        if r == None then None else Some(([first.value.0] + r.value.0, r.value.1))
  }

  /** The header code: coinbase, first and second output, and the number of non-zero mask bytes, one
      less when it cannot be zero. */
  function Code(c: Coins): int {
    var first, second := Unspent(c.vout, 0), Unspent(c.vout, 1);
    8 * (NonZeros(Mask(c.vout)) - (if first || second then 0 else 1)) + Bit(c.fCoinBase, 1) + Bit(first, 2) +
      Bit(second, 4)
  }

  function Written(f: OutCodec, c: Coins): Bytes {
    PutVarInt(c.nVersion) + (PutVarInt(Code(c)) + (Mask(c.vout) + (PutOuts(f, c.vout) + PutVarInt(c.nHeight))))
  }

  function ReadBack(f: OutCodec, s: Bytes): Option<(Coins, Bytes)> {
    var version := GetVarInt(s, 0);
    if version == None then None
    else
      var code := GetVarInt(version.value.1, 0);
      if code == None then None
      else
        var nCode := code.value.0;
        var mask := ReadMask(code.value.1, nCode / 8 + if nCode / 2 % 4 != 0 then 0 else 1);
        if mask == None then None
        else
          var outs := GetOuts(f, Available(nCode / 2 % 2 == 1, nCode / 4 % 2 == 1, mask.value.0), mask.value.1);
          if outs == None then None
          else
            var height := GetVarInt(outs.value.1, 0);
            if height == None then None
            else Some((Coins(nCode % 2 == 1, Trim(outs.value.0), height.value.0, version.value.0), height.value.1))
  }

  /** The outputs as the reader rebuilds them. */
  function Rebuilt(avail: seq<bool>, vout: seq<TxOut>): seq<TxOut>
    requires forall i | 0 <= i < |avail| && avail[i] :: i < |vout|
  {
    seq(|avail|, i requires 0 <= i < |avail| => if avail[i] then vout[i] else NULL_OUT)
  }

  lemma {:induction false} OutsRoundTrip(f: OutCodec, avail: seq<bool>, vout: seq<TxOut>, rest: Bytes)
    requires f.Works() && Tells(avail, vout) && forall i | |avail| <= i < |vout| :: vout[i].IsNull()
    ensures GetOuts(f, avail, PutOuts(f, vout) + rest) == Some((Rebuilt(avail, vout), rest))
    decreases |avail|
  {
    if avail == [] {
      AllNullPutsNothing(f, vout);
      assert [] + rest == rest;
    } else if vout == [] {
      assert !avail[0];
      OutsRoundTrip(f, avail[1..], [], rest);
      assert Rebuilt(avail, vout) == [NULL_OUT] + Rebuilt(avail[1..], []);
    } else {
      assert avail[0] == Unspent(vout, 0);
      forall i | 0 <= i < |avail| - 1
        ensures avail[1..][i] == Unspent(vout[1..], i)
      {
        assert avail[i + 1] == Unspent(vout, i + 1);
      }
      OutsRoundTrip(f, avail[1..], vout[1..], rest);
      var later := PutOuts(f, vout[1..]) + rest;
      if avail[0] {
        assert PutOuts(f, vout) + rest == f.put(vout[0]) + later;
      } else {
        assert PutOuts(f, vout) + rest == later;
      }
      assert Rebuilt(avail, vout) == [if avail[0] then vout[0] else NULL_OUT] + Rebuilt(avail[1..], vout[1..]);
    }
  }

  lemma {:induction false} AllNullPutsNothing(f: OutCodec, vout: seq<TxOut>)
    requires forall i | 0 <= i < |vout| :: vout[i].IsNull()
    ensures PutOuts(f, vout) == []
    decreases |vout|
  {
    if vout != [] {
      AllNullPutsNothing(f, vout[1..]);
    }
  }

  // ---------------------------------------------------------------- the round trip

  /** The header code gives back the flags and the number of non-zero mask bytes; it is not negative
      because something is unspent. */
  lemma CodeMeans(c: Coins)
    requires !c.IsPruned()
    ensures Code(c) >= 0
    ensures Code(c) % 2 == 1 <==> c.fCoinBase
    ensures Code(c) / 2 % 2 == 1 <==> Unspent(c.vout, 0)
    ensures Code(c) / 4 % 2 == 1 <==> Unspent(c.vout, 1)
    ensures Code(c) / 8 + (if Code(c) / 2 % 4 != 0 then 0 else 1) == NonZeros(Mask(c.vout))
  {
    hide Mask, Unspent;
    SomethingUnspent(c);
    CodeArithmetic(NonZeros(Mask(c.vout)), c.fCoinBase, Unspent(c.vout, 0), Unspent(c.vout, 1));
  }

  lemma CodeArithmetic(n: nat, fCoinBase: bool, first: bool, second: bool)
    requires first || second || n > 0
    ensures var code :=
      8 * (n - (if first || second then 0 else 1)) + Bit(fCoinBase, 1) + Bit(first, 2) + Bit(second, 4);
      && code >= 0 && (code % 2 == 1 <==> fCoinBase)
      && (code / 2 % 2 == 1 <==> first) && (code / 4 % 2 == 1 <==> second)
      && code / 8 + (if code / 2 % 4 != 0 then 0 else 1) == n
  {
  }

  /** The assertion in the writer holds: the first or second output or a mask byte is there. */
  lemma SomethingUnspent(c: Coins)
    requires !c.IsPruned()
    ensures Unspent(c.vout, 0) || Unspent(c.vout, 1) || NonZeros(Mask(c.vout)) > 0
  {
    var i :| 0 <= i < |c.vout| && !c.vout[i].IsNull();
    assert Unspent(c.vout, i);
    hide Unspent, Mask, NonZeros, NonZerosFrom, Coins.IsPruned;
    var mask := Mask(c.vout);
    if mask == [] {
      if i >= 2 {
        BeyondMask(c.vout, i);
      }
    } else {
      MaskEnds(c.vout);
      CountsAgree(mask);
      AnyNonZero(mask);
    }
  }

  lemma MaskEnds(vout: seq<TxOut>)
    ensures Mask(vout) != [] ==> Mask(vout)[|Mask(vout)| - 1] != 0
  {
    hide MaskByte;
  }

  /** What comes back: the same unspent outputs, the spent ones blank, nothing spent at the end. */
  function Recovered(c: Coins): Coins {
    c.(vout := Trim(Blanked(c.vout)), nVersion := if c.nVersion >= 0 then c.nVersion else Low(c.nVersion))
  }

  lemma RebuiltIs(c: Coins)
    ensures var avail := Available(Unspent(c.vout, 0), Unspent(c.vout, 1), Mask(c.vout));
      && Tells(avail, c.vout) && |avail| == 2 + 8 * |Mask(c.vout)|
      && (forall i | |avail| <= i < |c.vout| :: c.vout[i].IsNull())
      && Trim(Rebuilt(avail, c.vout)) == Trim(Blanked(c.vout))
  {
    hide MaskByte, Trim;
    MaskTells(c.vout, |Mask(c.vout)|);
    var avail := Available(Unspent(c.vout, 0), Unspent(c.vout, 1), Mask(c.vout));
    forall i | |avail| <= i < |c.vout|
      ensures c.vout[i].IsNull()
    {
      BeyondMask(c.vout, i);
    }
    var r := Rebuilt(avail, c.vout);
    var d := c.(vout := r);
    forall n: nat
      ensures c.Slot(n) == d.Slot(n)
    {
      if n < |avail| {
        assert avail[n] == Unspent(c.vout, n);
      }
    }
    SameSlotsSameNormal(c, d);
    assert Blanked(r) == r;
  }

  /** Whatever follows in the stream, reading what was written gives the coins back in standard form
      and stops exactly at the end of what was written. */
  lemma ReadsBack(f: OutCodec, c: Coins, rest: Bytes)
    requires f.Works() && !c.IsPruned()
    ensures ReadBack(f, Written(f, c) + rest) == Some((Recovered(c), rest))
  {
    hide Mask, Code, PutVarInt, GetVarInt, PutOuts, GetOuts, Available, Trim, Blanked, Unspent, Rebuilt, Tells;
    hide ReadMask, NonZeros, Low;
    CodeMeans(c);
    RebuiltIs(c);
    MaskEnds(c.vout);
    CountsAgree(Mask(c.vout));
    var s5 := PutVarInt(c.nHeight) + rest;
    var s4 := PutOuts(f, c.vout) + s5;
    var s3 := Mask(c.vout) + s4;
    var s2 := PutVarInt(Code(c)) + s3;
    assert Written(f, c) + rest == PutVarInt(c.nVersion) + s2;
    VarIntRoundTrip(c.nVersion, s2);
    VarIntRoundTrip(Code(c), s3);
    ReadMaskStops(Mask(c.vout), s4);
    OutsRoundTrip(f, Available(Unspent(c.vout, 0), Unspent(c.vout, 1), Mask(c.vout)), c.vout, s5);
    VarIntRoundTrip(c.nHeight, rest);
  }

  /** Cleaned coins survive exactly when their version is not negative and spent outputs in between
      hold no script. */
  lemma SurvivesIff(f: OutCodec, c: Coins, rest: Bytes)
    requires f.Works() && !c.IsPruned() && Trim(c.vout) == c.vout
    ensures ReadBack(f, Written(f, c) + rest) == Some((c, rest)) <==>
      c.nVersion >= 0 && forall i | 0 <= i < |c.vout| && c.vout[i].IsNull() :: c.vout[i] == NULL_OUT
  {
    ReadsBack(f, c, rest);
    hide ReadBack, Written;
    BlankedIff(c.vout);
  }

  lemma BlankedIff(vout: seq<TxOut>)
    requires Trim(vout) == vout
    ensures Trim(Blanked(vout)) == vout <==> forall i | 0 <= i < |vout| && vout[i].IsNull() :: vout[i] == NULL_OUT
  {
    BlankedStays(vout);
    hide Trim;
    var b := Blanked(vout);
    if forall i | 0 <= i < |vout| && vout[i].IsNull() :: vout[i] == NULL_OUT {
      assert b == vout;
    }
    if b == vout {
      forall i | 0 <= i < |vout| && vout[i].IsNull()
        ensures vout[i] == NULL_OUT
      {
        assert vout[i] == b[i];
      }
    }
  }

  lemma BlankedStays(vout: seq<TxOut>)
    requires Trim(vout) == vout
    ensures Trim(Blanked(vout)) == Blanked(vout)
  {
    var b := Blanked(vout);
    if vout != [] {
      assert b[|b| - 1] == vout[|vout| - 1];
    }
  }

  // ---------------------------------------------------------------- the two methods

  method Serialize(f: OutCodec, c: Coins) returns (s: Bytes)
    requires !c.IsPruned()
    ensures s == Written(f, c)
  {
    hide Mask, Unspent, PutVarInt, PutOuts, MaskByte;
    var nMaskSize, nMaskCode := CalcMaskSize(c.vout);
    var fFirst := Unspent(c.vout, 0);
    var fSecond := Unspent(c.vout, 1);
    SomethingUnspent(c);
    assert fFirst || fSecond || nMaskCode > 0;
    var nCode :=
      8 * (nMaskCode - if fFirst || fSecond then 0 else 1) + Bit(c.fCoinBase, 1) + Bit(fFirst, 2) + Bit(fSecond, 4);
    var version := WriteVarInt(c.nVersion);
    var code := WriteVarInt(nCode);
    var mask := WriteMask(c.vout, nMaskSize);
    var outs := WriteOuts(f, c.vout);
    var height := WriteVarInt(c.nHeight);
    MaskIs(c.vout);
    s := version + (code + (mask + (outs + height)));
  }

  lemma MaskIs(vout: seq<TxOut>)
    ensures MaskBytes(vout, |Mask(vout)|) == Mask(vout)
  {
    hide MaskByte;
  }

  method WriteMask(vout: seq<TxOut>, nMaskSize: nat) returns (s: Bytes)
    ensures s == MaskBytes(vout, nMaskSize)
  {
    hide MaskByte;
    s := [];
    for b := 0 to nMaskSize
      invariant s == MaskBytes(vout, b)
    {
      var chAvail := MaskOf(vout, b);
      s := s + [chAvail];
    }
  }

  method MaskOf(vout: seq<TxOut>, b: nat) returns (chAvail: Byte)
    ensures chAvail == MaskByte(vout, b)
  {
    hide Unspent, Bit, Packed;
    var w: nat := 1;
    var n: nat := 0;
    var o := 2 + 8 * b;
    for i := 0 to 8
      invariant n + w * Packed(vout, o + i, 8 - i) == Packed(vout, o, 8)
    {
      PackedStep(vout, o + i, 8 - i, w);
      n := n + Bit(Unspent(vout, 2 + b * 8 + i), w);
      w := 2 * w;
    }
    NothingPacked(vout, o + 8, w);
    MaskByteIs(vout, b);
    chAvail := n;
  }

  lemma PackedStep(vout: seq<TxOut>, o: nat, k: nat, w: nat)
    requires k > 0
    ensures w * Packed(vout, o, k) == Bit(Unspent(vout, o), w) + (2 * w) * Packed(vout, o + 1, k - 1)
  {
    var bit, p := Bit(Unspent(vout, o), 1), Packed(vout, o + 1, k - 1);
    assert Packed(vout, o, k) == bit + 2 * p;
    hide Packed;
    assert w * (bit + 2 * p) == w * bit + w * (2 * p);
    assert w * (2 * p) == (2 * w) * p;
    assert w * bit == Bit(Unspent(vout, o), w);
  }

  lemma NothingPacked(vout: seq<TxOut>, o: nat, w: nat)
    ensures w * Packed(vout, o, 0) == 0
  {
  }

  lemma MaskByteIs(vout: seq<TxOut>, b: nat)
    ensures Packed(vout, 2 + 8 * b, 8) == MaskByte(vout, b) < 0x100
  {
  }

  method WriteOuts(f: OutCodec, vout: seq<TxOut>) returns (s: Bytes)
    ensures s == PutOuts(f, vout)
  {
    s := [];
    for i := 0 to |vout|
      invariant PutOuts(f, vout) == s + PutOuts(f, vout[i..])
    {
      assert vout[i..][1..] == vout[i + 1..];
      if !vout[i].IsNull() {
        s := s + f.put(vout[i]);
      }
    }
  }

  method Unserialize(f: OutCodec, s: Bytes) returns (r: Option<(Coins, Bytes)>)
    ensures r == ReadBack(f, s)
  {
    hide GetVarInt, ReadMask, GetOuts, Available, Trim;
    var version := ReadVarInt(s);
    if version == None {
      return None;
    }
    var code := ReadVarInt(version.value.1);
    if code == None {
      return None;
    }
    var nCode := code.value.0;
    var nMaskCode := nCode / 8 + if nCode / 2 % 4 != 0 then 0 else 1;
    var vAvail := ReadAvailability([nCode / 2 % 2 == 1, nCode / 4 % 2 == 1], code.value.1, nMaskCode);
    if vAvail == None {
      return None;
    }
    var outs := ReadOuts(f, vAvail.value.0, vAvail.value.1);
    if outs == None {
      return None;
    }
    var height := ReadVarInt(outs.value.1);
    if height == None {
      return None;
    }
    var coins := Coins(nCode % 2 == 1, outs.value.0, height.value.0, version.value.0);
    coins := coins.Cleanup();
    r := Some((coins, height.value.1));
  }

  method ReadVarInt(is_: Bytes) returns (r: Option<(nat, Bytes)>)
    ensures r == GetVarInt(is_, 0)
  {
    hide Low;
    var s := is_;
    var n: nat := 0;
    while s != []
      invariant GetVarInt(is_, 0) == GetVarInt(s, n)
      decreases |s|
    {
      var chData := s[0];
      s := s[1..];
      n := n * 0x80 + Low(chData);
      if chData >= 0x80 {
        n := n + 1;
      } else {
        return Some((n, s));
      }
    }
    r := None;
  }

  /** The loop over the mask bytes, which adds 8 flags for each. */
  method ReadAvailability(first: seq<bool>, from: Bytes, nNonzero: nat) returns (r: Option<(seq<bool>, Bytes)>)
    requires |first| == 2
    ensures var mask := ReadMask(from, nNonzero);
      r == if mask == None then None else Some((Available(first[0], first[1], mask.value.0), mask.value.1))
  {
    hide Bits;
    AfterNothing(ReadMask(from, nNonzero));
    var vAvail, s, nMaskCode := first, from, nNonzero;
    ghost var mask: Bytes := [];
    while nMaskCode > 0
      invariant vAvail == Available(first[0], first[1], mask)
      invariant ReadMask(from, nNonzero) == After(mask, ReadMask(s, nMaskCode))
      decreases |s|
    {
      if s == [] {
        return None;
      }
      var chAvail := s[0];
      MaskGrows(first[0], first[1], mask, chAvail);
      ReadMaskStep(mask, s, nMaskCode);
      mask := mask + [chAvail];
      vAvail := vAvail + Bits(chAvail);
      s := s[1..];
      if chAvail != 0 {
        nMaskCode := nMaskCode - 1;
      }
    }
    assert mask + [] == mask;
    r := Some((vAvail, s));
  }

  lemma MaskGrows(first: bool, second: bool, mask: Bytes, ch: Byte)
    ensures Available(first, second, mask + [ch]) == Available(first, second, mask) + Bits(ch)
  {
    hide Bits;
    assert (mask + [ch])[..|mask|] == mask;
  }

  /** What was read before, followed by what is read later. */
  function After<T>(before: seq<T>, later: Option<(seq<T>, Bytes)>): Option<(seq<T>, Bytes)> {
    match later
    case None => None
    case Some(p) => Some((before + p.0, p.1))
  }

  lemma AfterNothing<T>(later: Option<(seq<T>, Bytes)>)
    ensures After([], later) == later
  {
    match later {
      case None =>
      case Some(p) =>
        var nothing: seq<T> := [];
        assert nothing + p.0 == p.0;
        assert p == (p.0, p.1);
    }
  }

  lemma AfterBoth<T>(a: seq<T>, b: seq<T>, later: Option<(seq<T>, Bytes)>)
    ensures After(a, After(b, later)) == After(a + b, later)
  {
    match later {
      case None =>
      case Some(p) =>
        assert a + (b + p.0) == (a + b) + p.0;
    }
  }

  lemma ReadMaskStep(mask: Bytes, s: Bytes, k: nat)
    requires k > 0 && s != []
    ensures After(mask, ReadMask(s, k)) == After(mask + [s[0]], ReadMask(s[1..], if s[0] != 0 then k - 1 else k))
  {
    AfterBoth(mask, [s[0]], ReadMask(s[1..], if s[0] != 0 then k - 1 else k));
  }

  method ReadOuts(f: OutCodec, vAvail: seq<bool>, from: Bytes) returns (r: Option<(seq<TxOut>, Bytes)>)
    ensures r == GetOuts(f, vAvail, from)
  {
    hide After;
    var vout := seq(|vAvail|, _ => NULL_OUT);
    var s := from;
    AfterNothing(GetOuts(f, vAvail, from));
    assert vout[..0] == [] && vAvail[0..] == vAvail;
    for i := 0 to |vAvail|
      invariant |vout| == |vAvail| && forall j | i <= j < |vout| :: vout[j] == NULL_OUT
      invariant GetOuts(f, vAvail, from) == After(vout[..i], GetOuts(f, vAvail[i..], s))
    {
      assert vAvail[i..][0] == vAvail[i] && vAvail[i..][1..] == vAvail[i + 1..];
      GetOutsStep(f, vAvail[i..], s);
      if vAvail[i] {
        var got := f.get(s);
        if got == None {
          NothingAfter(vout[..i]);
          return None;
        }
        vout := vout[i := got.value.0];
        s := got.value.1;
      }
      AfterBoth(vout[..i], [vout[i]], GetOuts(f, vAvail[i + 1..], s));
      assert vout[..i + 1] == vout[..i] + [vout[i]];
    }
    NoMoreOuts(f, vout, s);
    assert vout[..|vAvail|] == vout && vAvail[|vAvail|..] == [];
    r := Some((vout, s));
  }

  lemma GetOutsStep(f: OutCodec, avail: seq<bool>, s: Bytes)
    requires avail != []
    ensures var first := if avail[0] then f.get(s) else Some((NULL_OUT, s));
      GetOuts(f, avail, s) == if first == None then None
        else After([first.value.0], GetOuts(f, avail[1..], first.value.1))
  {
  }

  lemma NothingAfter(before: seq<TxOut>)
    ensures After(before, None) == None
  {
  }

  lemma NoMoreOuts(f: OutCodec, vout: seq<TxOut>, s: Bytes)
    ensures After(vout, GetOuts(f, [], s)) == Some((vout, s))
  {
    assert vout + [] == vout;
  }
}
