/** The scrypt core with N = 1024, r = 1, p = 1: the plain form and the SSE2 form against the
    definition in sections 3 to 6 of RFC 7914. */
module Scrypts {
  type Word = bv32

  function Add(a: Word, b: Word): Word {
    a + b
  }

  function Xor(a: Word, b: Word): Word {
    a ^ b
  }

  function Shl(a: Word, k: nat): Word
    requires k < 32
  {
    a << k
  }

  function Shr(a: Word, k: nat): Word
    requires k < 32
  {
    a >> k
  }

  function Rotl(a: Word, k: nat): Word
    requires 0 < k < 32
  {
    Shl(a, k) | Shr(a, 32 - k)
  }

  predicate IsRotation(k: nat) {
    k == 7 || k == 9 || k == 13 || k == 18
  }

  /** Words are added modulo 2^32. */
  lemma AddIs(a: Word, b: Word)
    ensures Add(a, b) as bv64 == (a as bv64 + b as bv64) % 0x1_0000_0000
  {
  }

  lemma XorIs(a: Word, b: Word)
    ensures Xor(a, b) == (a & !b) | (!a & b)
  {
  }

  /** Rotating shows 32 bits of the word written twice. */
  lemma RotlIs(a: Word, k: nat)
    requires IsRotation(k)
    ensures Rotl(a, k) as bv64 == (((a as bv64 << 32) | a as bv64) >> (32 - k)) & 0xFFFF_FFFF
  {
    if k == 7 {
      assert (a << 7) | (a >> 25) == a.RotateLeft(7);
    } else if k == 9 {
      assert (a << 9) | (a >> 23) == a.RotateLeft(9);
    } else if k == 13 {
      assert (a << 13) | (a >> 19) == a.RotateLeft(13);
    } else {
      assert (a << 18) | (a >> 14) == a.RotateLeft(18);
    }
  }

  /** Xoring both halves of a rotated word one after the other is xoring the rotated word. */
  lemma RotateInTwoSteps(x: Word, t: Word, k: nat)
    requires IsRotation(k)
    ensures Xor(Xor(x, Shl(t, k)), Shr(t, 32 - k)) == Xor(x, Rotl(t, k))
  {
    if k == 7 {
      assert (x ^ (t << 7)) ^ (t >> 25) == x ^ ((t << 7) | (t >> 25));
    } else if k == 9 {
      assert (x ^ (t << 9)) ^ (t >> 23) == x ^ ((t << 9) | (t >> 23));
    } else if k == 13 {
      assert (x ^ (t << 13)) ^ (t >> 19) == x ^ ((t << 13) | (t >> 19));
    } else {
      assert (x ^ (t << 18)) ^ (t >> 14) == x ^ ((t << 18) | (t >> 14));
    }
  }

  // ---------------------------------------------------------------- Salsa20/8 (section 3 of RFC 7914)

  datatype Block = Block(x00: Word, x01: Word, x02: Word, x03: Word, x04: Word, x05: Word, x06: Word, x07: Word,
                         x08: Word, x09: Word, x10: Word, x11: Word, x12: Word, x13: Word, x14: Word, x15: Word)

  datatype Quarter = Quarter(a: Word, b: Word, c: Word, d: Word)

  function QuarterRound(q: Quarter): Quarter {
    var b := Xor(q.b, Rotl(Add(q.a, q.d), 7));
    var c := Xor(q.c, Rotl(Add(b, q.a), 9));
    var d := Xor(q.d, Rotl(Add(c, b), 13));
    Quarter(Xor(q.a, Rotl(Add(d, c), 18)), b, c, d)
  }

  /** A quarter round on each column, starting from the diagonal. */
  function ColumnRound(s: Block): Block {
    var p := QuarterRound(Quarter(s.x00, s.x04, s.x08, s.x12));
    var q := QuarterRound(Quarter(s.x05, s.x09, s.x13, s.x01));
    var r := QuarterRound(Quarter(s.x10, s.x14, s.x02, s.x06));
    var t := QuarterRound(Quarter(s.x15, s.x03, s.x07, s.x11));
    Block(p.a, q.d, r.c, t.b, p.b, q.a, r.d, t.c, p.c, q.b, r.a, t.d, p.d, q.c, r.b, t.a)
  }

  function RowRound(s: Block): Block {
    var p := QuarterRound(Quarter(s.x00, s.x01, s.x02, s.x03));
    var q := QuarterRound(Quarter(s.x05, s.x06, s.x07, s.x04));
    var r := QuarterRound(Quarter(s.x10, s.x11, s.x08, s.x09));
    var t := QuarterRound(Quarter(s.x15, s.x12, s.x13, s.x14));
    Block(p.a, p.b, p.c, p.d, q.d, q.a, q.b, q.c, r.c, r.d, r.a, r.b, t.b, t.c, t.d, t.a)
  }

  function DoubleRound(s: Block): Block {
    RowRound(ColumnRound(s))
  }

  function DoubleRounds(s: Block, n: nat): Block {
    if n == 0 then s else DoubleRound(DoubleRounds(s, n - 1))
  }

  function AddBlocks(s: Block, t: Block): Block {
    Block(Add(s.x00, t.x00), Add(s.x01, t.x01), Add(s.x02, t.x02), Add(s.x03, t.x03), Add(s.x04, t.x04),
          Add(s.x05, t.x05), Add(s.x06, t.x06), Add(s.x07, t.x07), Add(s.x08, t.x08), Add(s.x09, t.x09),
          Add(s.x10, t.x10), Add(s.x11, t.x11), Add(s.x12, t.x12), Add(s.x13, t.x13), Add(s.x14, t.x14),
          Add(s.x15, t.x15))
  }

  function XorBlocks(s: Block, t: Block): Block {
    Block(Xor(s.x00, t.x00), Xor(s.x01, t.x01), Xor(s.x02, t.x02), Xor(s.x03, t.x03), Xor(s.x04, t.x04),
          Xor(s.x05, t.x05), Xor(s.x06, t.x06), Xor(s.x07, t.x07), Xor(s.x08, t.x08), Xor(s.x09, t.x09),
          Xor(s.x10, t.x10), Xor(s.x11, t.x11), Xor(s.x12, t.x12), Xor(s.x13, t.x13), Xor(s.x14, t.x14),
          Xor(s.x15, t.x15))
  }

  function Salsa8(s: Block): Block {
    AddBlocks(s, DoubleRounds(s, 4))
  }

  // ---------------------------------------------------------------- BlockMix and ROMix (sections 4 and 5)

  datatype Pair = Pair(b0: Block, b1: Block)

  function BlockMix(s: Pair): Pair {
    var y0 := Salsa8(XorBlocks(s.b1, s.b0));
    Pair(y0, Salsa8(XorBlocks(y0, s.b1)))
  }

  function XorPairs(s: Pair, t: Pair): Pair {
    Pair(XorBlocks(s.b0, t.b0), XorBlocks(s.b1, t.b1))
  }

  const N: nat := 1024

  /** The first word of the last block, modulo N. */
  function Integerify(s: Pair): (j: nat)
    ensures j < N
  {
    Index(s.b1.x00)
  }

  function Index(x: Word): (j: nat)
    ensures j < N
  {
    (x as nat) % N
  }

  function Value(x: Word): (n: nat) {
    x as nat
  }

  function Masked(x: Word, mask: Word): Word {
    x & mask
  }

  /** The program masks the word instead of dividing. */
  lemma MaskIsIndex(x: Word)
    ensures Value(Masked(x, 1023)) == Index(x)
    ensures exists q: nat :: Value(x) == 1024 * q + Index(x)
  {
    hide *;
    IndexIs(x);
    LowerParts(x);
    var h := Top8Of32(x);
    var m := Top8Of24(Masked(x, 0xFF_FFFF));
    var l := Top6Of16(Masked(x, 0xFFFF));
    var q := 0x4000 * h + 0x40 * m + l;
    assert Value(x) == 1024 * q + Value(Masked(x, 1023));
    Remainder(Value(x), q, Value(Masked(x, 1023)));
  }

  lemma IndexIs(x: Word)
    ensures Index(x) == Value(x) % 1024
  {
  }

  lemma Remainder(n: nat, q: nat, r: nat)
    requires n == 1024 * q + r && r < 1024
    ensures n % 1024 == r
  {
  }

  lemma LowerParts(x: Word)
    ensures Masked(Masked(x, 0xFF_FFFF), 0xFFFF) == Masked(x, 0xFFFF)
    ensures Masked(Masked(x, 0xFFFF), 1023) == Masked(x, 1023)
    ensures Masked(x, 0xFF_FFFF) <= 0xFF_FFFF && Masked(x, 0xFFFF) <= 0xFFFF
  {
  }

  lemma Top8Of32(x: Word) returns (high: nat)
    ensures Value(x) == 0x100_0000 * high + Value(Masked(x, 0xFF_FFFF))
  {
    hide Value;
    high := Value(x >> 24);
    SplitAt24(x);
  }

  lemma SplitAt24(x: Word)
    ensures Value(x) == 0x100_0000 * Value(x >> 24) + Value(x & 0xFF_FFFF)
  {
  }

  lemma Top8Of24(x: Word) returns (high: nat)
    requires x <= 0xFF_FFFF
    ensures Value(x) == 0x1_0000 * high + Value(Masked(x, 0xFFFF))
  {
    hide Value;
    high := Value(x >> 16);
    SplitAt16(x);
  }

  lemma SplitAt16(x: Word)
    requires x <= 0xFF_FFFF
    ensures Value(x) == 0x1_0000 * Value(x >> 16) + Value(x & 0xFFFF)
  {
  }

  lemma Top6Of16(x: Word) returns (high: nat)
    requires x <= 0xFFFF
    ensures Value(x) == 1024 * high + Value(Masked(x, 1023)) && Value(Masked(x, 1023)) < 1024
  {
    hide Value;
    high := Value(x >> 10);
    SplitAt10(x);
  }

  lemma SplitAt10(x: Word)
    requires x <= 0xFFFF
    ensures Value(x) == 1024 * Value(x >> 10) + Value(x & 1023) && Value(x & 1023) < 1024
  {
  }

  /** Entry i of the scratchpad. */
  function Mixed(s: Pair, i: nat): Pair {
    if i == 0 then s else BlockMix(Mixed(s, i - 1))
  }

  /** After i steps of the second loop. */
  function Looked(s: Pair, i: nat): Pair {
    if i == 0 then Mixed(s, N)
    else
      var x := Looked(s, i - 1);
      BlockMix(XorPairs(x, Mixed(s, Integerify(x))))
  }

  function ROMix(s: Pair): Pair {
    Looked(s, N)
  }

  /** PBKDF2 with one iteration: from password and salt to 32 little-endian words, and from password
      and words to the result. */
  datatype Pbkdf = Pbkdf(expand: seq<bv8> -> seq<Word>, finish: (seq<bv8>, seq<Word>) -> seq<bv8>)

  function BlockAt(w: seq<Word>, o: nat): Block
    requires o + 16 <= |w|
  {
    Block(w[o], w[o + 1], w[o + 2], w[o + 3], w[o + 4], w[o + 5], w[o + 6], w[o + 7], w[o + 8], w[o + 9], w[o + 10],
          w[o + 11], w[o + 12], w[o + 13], w[o + 14], w[o + 15])
  }

  function PairAt(w: seq<Word>, o: nat): Pair
    requires o + 32 <= |w|
  {
    Pair(BlockAt(w, o), BlockAt(w, o + 16))
  }

  function WordAt(s: Block, k: nat): Word
    requires k < 16
  {
    if k < 8 then
      if k < 4 then if k == 0 then s.x00 else if k == 1 then s.x01 else if k == 2 then s.x02 else s.x03
      else if k == 4 then s.x04 else if k == 5 then s.x05 else if k == 6 then s.x06 else s.x07
    else
      if k < 12 then if k == 8 then s.x08 else if k == 9 then s.x09 else if k == 10 then s.x10 else s.x11
      else if k == 12 then s.x12 else if k == 13 then s.x13 else if k == 14 then s.x14 else s.x15
  }

  lemma WordsInOrder(s: Block)
    ensures s ==
      Block(WordAt(s, 0), WordAt(s, 1), WordAt(s, 2), WordAt(s, 3), WordAt(s, 4), WordAt(s, 5), WordAt(s, 6),
            WordAt(s, 7), WordAt(s, 8), WordAt(s, 9), WordAt(s, 10), WordAt(s, 11), WordAt(s, 12), WordAt(s, 13),
            WordAt(s, 14), WordAt(s, 15))
  {
  }

  function WordsOf(s: Block): (w: seq<Word>)
    ensures |w| == 16
  {
    seq(16, k requires 0 <= k < 16 => WordAt(s, k))
  }

  /** scrypt (section 6), on an 80-byte input that is password and salt. */
  function Scrypt(f: Pbkdf, input: seq<bv8>): seq<bv8>
    requires |f.expand(input)| == 32
  {
    var s := ROMix(PairAt(f.expand(input), 0));
    f.finish(input, WordsOf(s.b0) + WordsOf(s.b1))
  }

  // ---------------------------------------------------------------- the plain form

  /** The eight rounds on sixteen local words. */
  method Rounds(s: Block) returns (t: Block)
    ensures t == DoubleRounds(s, 4)
  {
    hide Add, Xor, Rotl, DoubleRounds;
    var x00, x01, x02, x03, x04, x05, x06, x07, x08, x09, x10, x11, x12, x13, x14, x15 :=
      s.x00, s.x01, s.x02, s.x03, s.x04, s.x05, s.x06, s.x07, s.x08, s.x09, s.x10, s.x11, s.x12, s.x13, s.x14, s.x15;
    NoRounds(s);
    for i := 0 to 4
      invariant Block(x00, x01, x02, x03, x04, x05, x06, x07, x08, x09, x10, x11, x12, x13, x14, x15) ==
        DoubleRounds(s, i)
    {
      ghost var before := Block(x00, x01, x02, x03, x04, x05, x06, x07, x08, x09, x10, x11, x12, x13, x14, x15);
      x04 := Xor(x04, Rotl(Add(x00, x12), 7)); x09 := Xor(x09, Rotl(Add(x05, x01), 7));
      x14 := Xor(x14, Rotl(Add(x10, x06), 7)); x03 := Xor(x03, Rotl(Add(x15, x11), 7));
      x08 := Xor(x08, Rotl(Add(x04, x00), 9)); x13 := Xor(x13, Rotl(Add(x09, x05), 9));
      x02 := Xor(x02, Rotl(Add(x14, x10), 9)); x07 := Xor(x07, Rotl(Add(x03, x15), 9));
      x12 := Xor(x12, Rotl(Add(x08, x04), 13)); x01 := Xor(x01, Rotl(Add(x13, x09), 13));
      x06 := Xor(x06, Rotl(Add(x02, x14), 13)); x11 := Xor(x11, Rotl(Add(x07, x03), 13));
      x00 := Xor(x00, Rotl(Add(x12, x08), 18)); x05 := Xor(x05, Rotl(Add(x01, x13), 18));
      x10 := Xor(x10, Rotl(Add(x06, x02), 18)); x15 := Xor(x15, Rotl(Add(x11, x07), 18));
      ghost var between := Block(x00, x01, x02, x03, x04, x05, x06, x07, x08, x09, x10, x11, x12, x13, x14, x15);
      assert between == ColumnRound(before);
      x01 := Xor(x01, Rotl(Add(x00, x03), 7)); x06 := Xor(x06, Rotl(Add(x05, x04), 7));
      x11 := Xor(x11, Rotl(Add(x10, x09), 7)); x12 := Xor(x12, Rotl(Add(x15, x14), 7));
      x02 := Xor(x02, Rotl(Add(x01, x00), 9)); x07 := Xor(x07, Rotl(Add(x06, x05), 9));
      x08 := Xor(x08, Rotl(Add(x11, x10), 9)); x13 := Xor(x13, Rotl(Add(x12, x15), 9));
      x03 := Xor(x03, Rotl(Add(x02, x01), 13)); x04 := Xor(x04, Rotl(Add(x07, x06), 13));
      x09 := Xor(x09, Rotl(Add(x08, x11), 13)); x14 := Xor(x14, Rotl(Add(x13, x12), 13));
      x00 := Xor(x00, Rotl(Add(x03, x02), 18)); x05 := Xor(x05, Rotl(Add(x04, x07), 18));
      x10 := Xor(x10, Rotl(Add(x09, x08), 18)); x15 := Xor(x15, Rotl(Add(x14, x13), 18));
      assert Block(x00, x01, x02, x03, x04, x05, x06, x07, x08, x09, x10, x11, x12, x13, x14, x15) == RowRound(between);
      OneMoreRound(s, i);
    }
    t := Block(x00, x01, x02, x03, x04, x05, x06, x07, x08, x09, x10, x11, x12, x13, x14, x15);
  }

  lemma NoRounds(s: Block)
    ensures DoubleRounds(s, 0) == s
  {
  }

  lemma OneMoreRound(s: Block, n: nat)
    ensures DoubleRounds(s, n + 1) == RowRound(ColumnRound(DoubleRounds(s, n)))
  {
  }

  /** The block at `b` is xored with the one at `bx`. */
  method XorInto(X: array<Word>, b: nat, bx: nat)
    requires b + 16 <= X.Length && bx + 16 <= X.Length && (b + 16 <= bx || bx + 16 <= b)
    modifies X
    ensures BlockAt(X[..], b) == XorBlocks(old(BlockAt(X[..], b)), old(BlockAt(X[..], bx)))
    ensures forall k | 0 <= k < X.Length && !(b <= k < b + 16) :: X[k] == old(X[k])
  {
    hide Xor;
    forall k | 0 <= k < 16 {
      X[b + k] := Xor(X[b + k], X[bx + k]);
    }
  }

  method AddInto(X: array<Word>, b: nat, s: Block)
    requires b + 16 <= X.Length
    modifies X
    ensures BlockAt(X[..], b) == AddBlocks(old(BlockAt(X[..], b)), s)
    ensures forall k | 0 <= k < X.Length && !(b <= k < b + 16) :: X[k] == old(X[k])
  {
    hide Add, WordAt;
    forall k | 0 <= k < 16 {
      X[b + k] := Add(X[b + k], WordAt(s, k));
    }
    WordsInOrder(s);
  }

  /** The block at `b` is xored with the one at `bx` and run through Salsa20/8. */
  method XorSalsa8(X: array<Word>, b: nat, bx: nat)
    requires b + 16 <= X.Length && bx + 16 <= X.Length && (b + 16 <= bx || bx + 16 <= b)
    modifies X
    ensures BlockAt(X[..], b) == Salsa8(XorBlocks(old(BlockAt(X[..], b)), old(BlockAt(X[..], bx))))
    ensures forall k | 0 <= k < X.Length && !(b <= k < b + 16) :: X[k] == old(X[k])
  {
    hide BlockAt, XorBlocks, AddBlocks, DoubleRounds;
    XorInto(X, b, bx);
    var t := Rounds(BlockAt(X[..], b));
    AddInto(X, b, t);
  }

  lemma XorCommutes(s: Block, t: Block)
    ensures XorBlocks(s, t) == XorBlocks(t, s)
  {
  }

  /** One step of either loop on the 32 words. */
  method MixStep(X: array<Word>)
    requires X.Length == 32
    modifies X
    ensures PairAt(X[..], 0) == BlockMix(old(PairAt(X[..], 0)))
  {
    hide BlockAt, Salsa8, XorBlocks;
    label start:
    XorSalsa8(X, 0, 16);
    BlockUnchanged(old(X[..]), X[..], 16);
    label between:
    XorSalsa8(X, 16, 0);
    BlockUnchanged(old@between(X[..]), X[..], 0);
    XorCommutes(old(BlockAt(X[..], 16)), old(BlockAt(X[..], 0)));
    XorCommutes(BlockAt(X[..], 0), old(BlockAt(X[..], 16)));
  }

  lemma BlockUnchanged(v: seq<Word>, w: seq<Word>, o: nat)
    requires o + 16 <= |v| == |w| && forall k | o <= k < o + 16 :: v[k] == w[k]
    ensures BlockAt(v, o) == BlockAt(w, o)
  {
  }

  /** The scratchpad holds the first `n` entries. */
  ghost predicate Filled(V: seq<Word>, s: Pair, n: nat) {
    32 * n <= |V| && forall i | 0 <= i < n :: PairAt(V, 32 * i) == Mixed(s, i)
  }

  method FillRow(X: array<Word>, V: array<Word>, i: nat, ghost s: Pair)
    requires X != V && X.Length == 32 && 32 * (i + 1) <= V.Length
    requires Filled(V[..], s, i) && PairAt(X[..], 0) == Mixed(s, i)
    modifies V
    ensures Filled(V[..], s, i + 1)
  {
    hide BlockAt, Mixed;
    forall k | 0 <= k < 32 {
      V[i * 32 + k] := X[k];
    }
    assert X[..] == old(X[..]);
    assert V[..][32 * i..32 * i + 32] == X[..][0..32];
    SamePair(X[..], 0, V[..], 32 * i);
    forall r | 0 <= r < i + 1
      ensures PairAt(V[..], 32 * r) == Mixed(s, r)
    {
      if r < i {
        assert old(V[..])[32 * r..32 * r + 32] == V[..][32 * r..32 * r + 32];
        SamePair(old(V[..]), 32 * r, V[..], 32 * r);
      }
    }
  }

  lemma SamePair(v: seq<Word>, o: nat, w: seq<Word>, p: nat)
    requires o + 32 <= |v| && p + 32 <= |w| && v[o..o + 32] == w[p..p + 32]
    ensures PairAt(v, o) == PairAt(w, p)
  {
    SliceDecides(v, o);
    SliceDecides(w, p);
  }

  lemma SliceDecides(v: seq<Word>, o: nat)
    requires o + 32 <= |v|
    ensures PairAt(v, o) == PairAt(v[o..o + 32], 0)
  {
  }

  method XorRow(X: array<Word>, V: array<Word>, j: nat)
    requires X != V && X.Length == 32 && j + 32 <= V.Length
    modifies X
    ensures PairAt(X[..], 0) == XorPairs(old(PairAt(X[..], 0)), PairAt(V[..], j))
  {
    hide Xor, BlockAt, XorBlocks;
    for k := 0 to 32
      invariant forall m | 0 <= m < k :: X[m] == Xor(old(X[m]), V[j + m])
      invariant forall m | k <= m < 32 :: X[m] == old(X[m])
    {
      X[k] := Xor(X[k], V[j + k]);
    }
    XoredBlock(X[..], 0, old(X[..]), 0, V[..], j);
    XoredBlock(X[..], 16, old(X[..]), 16, V[..], j + 16);
  }

  lemma XoredBlock(u: seq<Word>, o: nat, v: seq<Word>, p: nat, w: seq<Word>, q: nat)
    requires o + 16 <= |u| && p + 16 <= |v| && q + 16 <= |w|
    requires forall k | o <= k < o + 16 :: u[k] == Xor(v[k - o + p], w[k - o + q])
    ensures BlockAt(u, o) == XorBlocks(BlockAt(v, p), BlockAt(w, q))
  {
    hide Xor;
  }

  lemma MixedOneMore(s: Pair, i: nat)
    ensures Mixed(s, 0) == s && Mixed(s, i + 1) == BlockMix(Mixed(s, i)) && Looked(s, 0) == Mixed(s, N)
    ensures var x := Looked(s, i);
      Looked(s, i + 1) == BlockMix(XorPairs(x, Mixed(s, Integerify(x))))
  {
  }

  lemma WordsBack(w: seq<Word>)
    requires |w| == 32
    ensures w == WordsOf(PairAt(w, 0).b0) + WordsOf(PairAt(w, 0).b1)
  {
    hide WordsOf, BlockAt;
    WordsOfBlock(w, 0);
    WordsOfBlock(w, 16);
  }

  lemma WordsOfBlock(w: seq<Word>, o: nat)
    requires o + 16 <= |w|
    ensures WordsOf(BlockAt(w, o)) == w[o..o + 16]
  {
    var r := WordsOf(BlockAt(w, o));
    forall k | 0 <= k < 16
      ensures r[k] == w[o + k]
    {
    }
  }

  /** The plain form computes scrypt. */
  method ScryptGeneric(f: Pbkdf, input: seq<bv8>, V: array<Word>) returns (output: seq<bv8>)
    requires |f.expand(input)| == 32 && V.Length >= 32 * 1024
    modifies V
    ensures output == Scrypt(f, input)
  {
    hide BlockAt, Mixed, Looked, BlockMix, XorPairs, Index, WordsOf, Filled, Value, Masked;
    var B := f.expand(input);
    var X := new Word[32];
    for k := 0 to 32
      invariant X[..k] == B[..k]
    {
      X[k] := B[k];
    }
    assert X[..] == B;
    ghost var s := PairAt(B, 0);
    MixedOneMore(s, 0);
    NothingFilled(V[..], s);
    for i := 0 to 1024
      invariant Filled(V[..], s, i) && PairAt(X[..], 0) == Mixed(s, i)
    {
      FillRow(X, V, i, s);
      MixStep(X);
      MixedOneMore(s, i);
    }
    for i := 0 to 1024
      invariant Filled(V[..], s, N) && PairAt(X[..], 0) == Looked(s, i)
    {
      FirstWord(X[..]);
      MaskIsIndex(X[16]);
      var j := 32 * Value(Masked(X[16], 1023));
      FilledAt(V[..], s, Index(X[16]));
      XorRow(X, V, j);
      MixStep(X);
      MixedOneMore(s, i);
    }
    WordsBack(X[..]);
    output := f.finish(input, X[..]);
  }

  lemma NothingFilled(V: seq<Word>, s: Pair)
    ensures Filled(V, s, 0)
  {
  }

  lemma FilledAt(V: seq<Word>, s: Pair, j: nat)
    requires Filled(V, s, N) && j < N
    ensures 32 * j + 32 <= |V| && PairAt(V, 32 * j) == Mixed(s, j)
  {
  }

  lemma FirstWord(w: seq<Word>)
    requires |w| == 32
    ensures w[16] == PairAt(w, 0).b1.x00
  {
  }

  // ---------------------------------------------------------------- the SSE2 form

  /** Four words in one register. */
  datatype Lanes = Lanes(l0: Word, l1: Word, l2: Word, l3: Word)

  function AddLanes(a: Lanes, b: Lanes): Lanes {
    Lanes(Add(a.l0, b.l0), Add(a.l1, b.l1), Add(a.l2, b.l2), Add(a.l3, b.l3))
  }

  function XorLanes(a: Lanes, b: Lanes): Lanes {
    Lanes(Xor(a.l0, b.l0), Xor(a.l1, b.l1), Xor(a.l2, b.l2), Xor(a.l3, b.l3))
  }

  function ShlLanes(a: Lanes, k: nat): Lanes
    requires k < 32
  {
    Lanes(Shl(a.l0, k), Shl(a.l1, k), Shl(a.l2, k), Shl(a.l3, k))
  }

  function ShrLanes(a: Lanes, k: nat): Lanes
    requires k < 32
  {
    Lanes(Shr(a.l0, k), Shr(a.l1, k), Shr(a.l2, k), Shr(a.l3, k))
  }

  function RotlLanes(a: Lanes, k: nat): Lanes
    requires 0 < k < 32
  {
    Lanes(Rotl(a.l0, k), Rotl(a.l1, k), Rotl(a.l2, k), Rotl(a.l3, k))
  }

  function Lane(a: Lanes, i: nat): Word
    requires i < 4
  {
    if i == 0 then a.l0 else if i == 1 then a.l1 else if i == 2 then a.l2 else a.l3
  }

  /** Lane i of the result is the lane that bits 2i and 2i + 1 of the control select. */
  function Shuffle(a: Lanes, control: nat): Lanes
    requires control < 256
  {
    Lanes(Lane(a, control % 4), Lane(a, control / 4 % 4), Lane(a, control / 16 % 4), Lane(a, control / 64))
  }

  datatype Registers = Registers(X0: Lanes, X1: Lanes, X2: Lanes, X3: Lanes)

  /** Register r, lane l holds word 5 * (4 * r + l) modulo 16: the diagonals of the square. */
  function Diagonals(s: Block): Registers {
    Registers(Lanes(s.x00, s.x05, s.x10, s.x15), Lanes(s.x04, s.x09, s.x14, s.x03),
              Lanes(s.x08, s.x13, s.x02, s.x07), Lanes(s.x12, s.x01, s.x06, s.x11))
  }

  /** The same after the registers were rearranged for the row half of a double round. */
  function Rearranged(s: Block): Registers {
    Registers(Lanes(s.x00, s.x05, s.x10, s.x15), Lanes(s.x03, s.x04, s.x09, s.x14),
              Lanes(s.x02, s.x07, s.x08, s.x13), Lanes(s.x01, s.x06, s.x11, s.x12))
  }

  lemma ShuffleControls(a: Lanes)
    ensures Shuffle(a, 0x93) == Lanes(a.l3, a.l0, a.l1, a.l2)
    ensures Shuffle(a, 0x4E) == Lanes(a.l2, a.l3, a.l0, a.l1)
    ensures Shuffle(a, 0x39) == Lanes(a.l1, a.l2, a.l3, a.l0)
  {
  }

  lemma RotateLanes(x: Lanes, t: Lanes, k: nat)
    requires IsRotation(k)
    ensures XorLanes(XorLanes(x, ShlLanes(t, k)), ShrLanes(t, 32 - k)) == XorLanes(x, RotlLanes(t, k))
  {
    hide Xor, Shl, Shr, Rotl;
    RotateInTwoSteps(x.l0, t.l0, k);
    RotateInTwoSteps(x.l1, t.l1, k);
    RotateInTwoSteps(x.l2, t.l2, k);
    RotateInTwoSteps(x.l3, t.l3, k);
  }

  /** Four quarter rounds at once: register a is the diagonal, b, c and d follow it. */
  function QuarterRounds(a: Lanes, b: Lanes, c: Lanes, d: Lanes): Registers {
    var b' := XorLanes(b, RotlLanes(AddLanes(a, d), 7));
    var c' := XorLanes(c, RotlLanes(AddLanes(b', a), 9));
    var d' := XorLanes(d, RotlLanes(AddLanes(c', b'), 13));
    Registers(XorLanes(a, RotlLanes(AddLanes(d', c'), 18)), b', c', d')
  }

  lemma ColumnsInRegisters(s: Block)
    ensures var r := Diagonals(s);
      QuarterRounds(r.X0, r.X1, r.X2, r.X3) == Diagonals(ColumnRound(s))
  {
    hide Add, Xor, Rotl;
  }

  lemma RowsInRegisters(s: Block)
    ensures var r, t := Rearranged(s), Rearranged(RowRound(s));
      QuarterRounds(r.X0, r.X3, r.X2, r.X1) == Registers(t.X0, t.X3, t.X2, t.X1)
  {
    hide Add, Xor, Rotl;
  }

  /** The eight rounds on four registers stay on the diagonals of the plain rounds. */
  method RoundsSse2(B: Registers, ghost s: Block) returns (R: Registers)
    requires B == Diagonals(s)
    ensures R == Diagonals(DoubleRounds(s, 4))
  {
    hide AddLanes, XorLanes, ShlLanes, ShrLanes, RotlLanes, Shuffle, RowRound, ColumnRound, DoubleRounds;
    var X0, X1, X2, X3 := B.X0, B.X1, B.X2, B.X3;
    var T;
    NoRounds(s);
    for i := 0 to 4
      invariant Registers(X0, X1, X2, X3) == Diagonals(DoubleRounds(s, i))
    {
      ghost var before := DoubleRounds(s, i);
      ColumnsInRegisters(before);
      T := AddLanes(X0, X3);
      RotateLanes(X1, T, 7);
      X1 := XorLanes(X1, ShlLanes(T, 7));
      X1 := XorLanes(X1, ShrLanes(T, 25));
      T := AddLanes(X1, X0);
      RotateLanes(X2, T, 9);
      X2 := XorLanes(X2, ShlLanes(T, 9));
      X2 := XorLanes(X2, ShrLanes(T, 23));
      T := AddLanes(X2, X1);
      RotateLanes(X3, T, 13);
      X3 := XorLanes(X3, ShlLanes(T, 13));
      X3 := XorLanes(X3, ShrLanes(T, 19));
      T := AddLanes(X3, X2);
      RotateLanes(X0, T, 18);
      X0 := XorLanes(X0, ShlLanes(T, 18));
      X0 := XorLanes(X0, ShrLanes(T, 14));
      assert Registers(X0, X1, X2, X3) == Diagonals(ColumnRound(before));
      ShuffleControls(X1);
      ShuffleControls(X2);
      ShuffleControls(X3);
      X1 := Shuffle(X1, 0x93);
      X2 := Shuffle(X2, 0x4E);
      X3 := Shuffle(X3, 0x39);
      assert Registers(X0, X1, X2, X3) == Rearranged(ColumnRound(before));
      RowsInRegisters(ColumnRound(before));
      T := AddLanes(X0, X1);
      RotateLanes(X3, T, 7);
      X3 := XorLanes(X3, ShlLanes(T, 7));
      X3 := XorLanes(X3, ShrLanes(T, 25));
      T := AddLanes(X3, X0);
      RotateLanes(X2, T, 9);
      X2 := XorLanes(X2, ShlLanes(T, 9));
      X2 := XorLanes(X2, ShrLanes(T, 23));
      T := AddLanes(X2, X3);
      RotateLanes(X1, T, 13);
      X1 := XorLanes(X1, ShlLanes(T, 13));
      X1 := XorLanes(X1, ShrLanes(T, 19));
      T := AddLanes(X1, X2);
      RotateLanes(X0, T, 18);
      X0 := XorLanes(X0, ShlLanes(T, 18));
      X0 := XorLanes(X0, ShrLanes(T, 14));
      assert Registers(X0, X1, X2, X3) == Rearranged(RowRound(ColumnRound(before)));
      ShuffleControls(X1);
      ShuffleControls(X2);
      ShuffleControls(X3);
      X1 := Shuffle(X1, 0x39);
      X2 := Shuffle(X2, 0x4E);
      X3 := Shuffle(X3, 0x93);
      OneMoreRound(s, i);
    }
    R := Registers(X0, X1, X2, X3);
  }

  function RegistersAt(w: seq<Lanes>, o: nat): Registers
    requires o + 4 <= |w|
  {
    Registers(w[o], w[o + 1], w[o + 2], w[o + 3])
  }

  function XorRegisters(a: Registers, b: Registers): Registers {
    Registers(XorLanes(a.X0, b.X0), XorLanes(a.X1, b.X1), XorLanes(a.X2, b.X2), XorLanes(a.X3, b.X3))
  }

  function AddRegisters(a: Registers, b: Registers): Registers {
    Registers(AddLanes(a.X0, b.X0), AddLanes(a.X1, b.X1), AddLanes(a.X2, b.X2), AddLanes(a.X3, b.X3))
  }

  /** Lane-wise operations work on the diagonals as block operations do on the square. */
  lemma DiagonalsCommute(s: Block, t: Block)
    ensures XorRegisters(Diagonals(s), Diagonals(t)) == Diagonals(XorBlocks(s, t))
    ensures AddRegisters(Diagonals(s), Diagonals(t)) == Diagonals(AddBlocks(s, t))
  {
    hide Add, Xor;
  }

  method XorSalsa8Sse2(X: array<Lanes>, b: nat, bx: nat, ghost s: Block, ghost t: Block)
    requires b + 4 <= X.Length && bx + 4 <= X.Length && (b + 4 <= bx || bx + 4 <= b)
    requires RegistersAt(X[..], b) == Diagonals(s) && RegistersAt(X[..], bx) == Diagonals(t)
    modifies X
    ensures RegistersAt(X[..], b) == Diagonals(Salsa8(XorBlocks(s, t)))
    ensures forall k | 0 <= k < X.Length && !(b <= k < b + 4) :: X[k] == old(X[k])
  {
    hide XorRegisters, AddRegisters, RegistersAt, Diagonals, AddBlocks, XorBlocks, DoubleRounds;
    XorRegistersInto(X, b, bx);
    DiagonalsCommute(s, t);
    var R := RoundsSse2(ReadRegisters(X, b), XorBlocks(s, t));
    DiagonalsCommute(XorBlocks(s, t), DoubleRounds(XorBlocks(s, t), 4));
    AddRegistersInto(X, b, R);
  }

  function ReadRegisters(X: array<Lanes>, b: nat): (r: Registers)
    requires b + 4 <= X.Length
    reads X
    ensures r == RegistersAt(X[..], b)
  {
    Registers(X[b], X[b + 1], X[b + 2], X[b + 3])
  }

  method XorRegistersInto(X: array<Lanes>, b: nat, bx: nat)
    requires b + 4 <= X.Length && bx + 4 <= X.Length && (b + 4 <= bx || bx + 4 <= b)
    modifies X
    ensures RegistersAt(X[..], b) == XorRegisters(old(RegistersAt(X[..], b)), old(RegistersAt(X[..], bx)))
    ensures forall k | 0 <= k < X.Length && !(b <= k < b + 4) :: X[k] == old(X[k])
  {
    hide XorLanes;
    X[b] := XorLanes(X[b], X[bx]);
    X[b + 1] := XorLanes(X[b + 1], X[bx + 1]);
    X[b + 2] := XorLanes(X[b + 2], X[bx + 2]);
    X[b + 3] := XorLanes(X[b + 3], X[bx + 3]);
  }

  method AddRegistersInto(X: array<Lanes>, b: nat, R: Registers)
    requires b + 4 <= X.Length
    modifies X
    ensures RegistersAt(X[..], b) == AddRegisters(old(RegistersAt(X[..], b)), R)
    ensures forall k | 0 <= k < X.Length && !(b <= k < b + 4) :: X[k] == old(X[k])
  {
    hide AddLanes;
    X[b] := AddLanes(X[b], R.X0);
    X[b + 1] := AddLanes(X[b + 1], R.X1);
    X[b + 2] := AddLanes(X[b + 2], R.X2);
    X[b + 3] := AddLanes(X[b + 3], R.X3);
  }

  /** Eight registers hold the two blocks of a pair on their diagonals. */
  ghost predicate Holds(w: seq<Lanes>, o: nat, s: Pair) {
    o + 8 <= |w| && RegistersAt(w, o) == Diagonals(s.b0) && RegistersAt(w, o + 4) == Diagonals(s.b1)
  }

  lemma HoldsSpan(v: seq<Lanes>, o: nat, w: seq<Lanes>, p: nat, s: Pair)
    requires Holds(v, o, s) && p + 8 <= |w| && v[o..o + 8] == w[p..p + 8]
    ensures Holds(w, p, s)
  {
    RegistersInSpan(v, o);
    RegistersInSpan(w, p);
  }

  lemma RegistersInSpan(w: seq<Lanes>, o: nat)
    requires o + 8 <= |w|
    ensures RegistersAt(w, o) == RegistersAt(w[o..o + 8], 0) && RegistersAt(w, o + 4) == RegistersAt(w[o..o + 8], 4)
  {
  }

  method MixStepSse2(X: array<Lanes>, ghost s: Pair)
    requires X.Length == 8 && Holds(X[..], 0, s)
    modifies X
    ensures Holds(X[..], 0, BlockMix(s))
  {
    hide Salsa8, XorBlocks, Diagonals;
    XorSalsa8Sse2(X, 0, 4, s.b0, s.b1);
    XorCommutes(s.b0, s.b1);
    XorSalsa8Sse2(X, 4, 0, s.b1, BlockMix(s).b0);
    XorCommutes(s.b1, BlockMix(s).b0);
  }

  ghost predicate FilledSse2(V: seq<Lanes>, s: Pair, n: nat) {
    8 * n <= |V| && forall i | 0 <= i < n :: Holds(V, 8 * i, Mixed(s, i))
  }

  method FillRowSse2(X: array<Lanes>, V: array<Lanes>, i: nat, ghost s: Pair)
    requires X != V && X.Length == 8 && 8 * (i + 1) <= V.Length
    requires FilledSse2(V[..], s, i) && Holds(X[..], 0, Mixed(s, i))
    modifies V
    ensures FilledSse2(V[..], s, i + 1)
  {
    hide Mixed, Holds;
    for k := 0 to 8
      invariant forall m | 0 <= m < V.Length && !(8 * i <= m < 8 * i + k) :: V[m] == old(V[m])
      invariant forall m | 8 * i <= m < 8 * i + k :: V[m] == X[m - 8 * i]
    {
      V[i * 8 + k] := X[k];
    }
    assert X[..] == old(X[..]);
    assert V[..][8 * i..8 * i + 8] == X[..][0..8];
    HoldsSpan(X[..], 0, V[..], 8 * i, Mixed(s, i));
    forall r | 0 <= r < i + 1
      ensures Holds(V[..], 8 * r, Mixed(s, r))
    {
      if r < i {
        assert old(V[..])[8 * r..8 * r + 8] == V[..][8 * r..8 * r + 8];
        HoldsSpan(old(V[..]), 8 * r, V[..], 8 * r, Mixed(s, r));
      }
    }
  }

  method XorRowSse2(X: array<Lanes>, V: array<Lanes>, j: nat, ghost s: Pair, ghost t: Pair)
    requires X != V && X.Length == 8 && Holds(X[..], 0, s) && Holds(V[..], j, t)
    modifies X
    ensures Holds(X[..], 0, XorPairs(s, t))
  {
    hide XorLanes, Diagonals, XorBlocks, XorRegisters, RegistersAt;
    for k := 0 to 8
      invariant forall m | 0 <= m < k :: X[m] == XorLanes(old(X[m]), V[j + m])
      invariant forall m | k <= m < 8 :: X[m] == old(X[m])
    {
      X[k] := XorLanes(X[k], V[j + k]);
    }
    XoredPair(X[..], old(X[..]), V[..], j, s, t);
  }

  lemma XoredPair(u: seq<Lanes>, v: seq<Lanes>, w: seq<Lanes>, j: nat, s: Pair, t: Pair)
    requires |u| == |v| == 8 && Holds(v, 0, s) && Holds(w, j, t)
    requires forall k | 0 <= k < 8 :: u[k] == XorLanes(v[k], w[j + k])
    ensures Holds(u, 0, XorPairs(s, t))
  {
    hide XorLanes, Diagonals, XorBlocks, XorRegisters, RegistersAt;
    DiagonalsCommute(s.b0, t.b0);
    DiagonalsCommute(s.b1, t.b1);
    XoredRegisters(u, v, 0, w, j);
    XoredRegisters(u, v, 4, w, j + 4);
  }

  lemma XoredRegisters(u: seq<Lanes>, v: seq<Lanes>, o: nat, w: seq<Lanes>, q: nat)
    requires o + 4 <= |u| == |v| && q + 4 <= |w|
    requires forall k | o <= k < o + 4 :: u[k] == XorLanes(v[k], w[k - o + q])
    ensures RegistersAt(u, o) == XorRegisters(RegistersAt(v, o), RegistersAt(w, q))
  {
    hide XorLanes;
  }

  // ---------------------------------------------------------------- loading and storing registers

  function Permuted(i: nat): (j: nat)
    requires i < 16
    ensures j < 16
  {
    i * 5 % 16
  }

  lemma PermutedOnce(i: nat, j: nat)
    requires i < 16 && j < 16 && Permuted(i) == Permuted(j)
    ensures i == j
  {
  }

  /** The 32 words of the registers as memory shows them. */
  function InMemory(w: seq<Lanes>): (u: seq<Word>)
    requires |w| == 8
    ensures |u| == 32
  {
    seq(32, m requires 0 <= m < 32 => Lane(w[m / 4], m % 4))
  }

  ghost predicate HalfLoaded(u: seq<Word>, B: seq<Word>, o: nat) {
    o + 16 <= |u| && o + 16 <= |B| && forall i: nat | i < 16 :: WordAtOffset(u, o, i) == B[o + Permuted(i)]
  }

  function WordAtOffset(u: seq<Word>, o: nat, i: nat): Word
    requires o + i < |u|
  {
    u[o + i]
  }

  lemma LoadedLane(w: seq<Lanes>, B: seq<Word>, k: nat, r: nat, l: nat, p: nat)
    requires |w| == 8 && |B| == 32 && k < 2 && r < 4 && l < 4 && HalfLoaded(InMemory(w), B, 16 * k)
    requires p == (4 * r + l) * 5 % 16
    ensures Lane(w[4 * k + r], l) == B[16 * k + p]
  {
    hide Lane;
    assert WordAtOffset(InMemory(w), 16 * k, 4 * r + l) == B[16 * k + Permuted(4 * r + l)];
  }

  predicate RegisterIs(w: seq<Lanes>, r: nat, B: seq<Word>, o: nat, p: nat, q: nat, s: nat, t: nat) {
    && r < |w| && o + p < |B| && o + q < |B| && o + s < |B| && o + t < |B|
    && w[r] == Lanes(B[o + p], B[o + q], B[o + s], B[o + t])
  }

  /** Register r of the half holds one diagonal, whose places are p, q, s and t. */
  lemma LoadedRegister(w: seq<Lanes>, B: seq<Word>, k: nat, r: nat, p: nat, q: nat, s: nat, t: nat)
    requires |w| == 8 && |B| == 32 && k < 2 && r < 4 && HalfLoaded(InMemory(w), B, 16 * k)
    requires p == (4 * r) * 5 % 16 && q == (4 * r + 1) * 5 % 16 && s == (4 * r + 2) * 5 % 16
    requires t == (4 * r + 3) * 5 % 16
    ensures RegisterIs(w, 4 * k + r, B, 16 * k, p, q, s, t)
  {
    hide HalfLoaded, InMemory;
    LoadedLane(w, B, k, r, 0, p);
    LoadedLane(w, B, k, r, 1, q);
    LoadedLane(w, B, k, r, 2, s);
    LoadedLane(w, B, k, r, 3, t);
  }

  lemma LoadedHalf(w: seq<Lanes>, B: seq<Word>, k: nat)
    requires |w| == 8 && |B| == 32 && k < 2 && HalfLoaded(InMemory(w), B, 16 * k)
    ensures RegistersAt(w, 4 * k) == Diagonals(BlockAt(B, 16 * k))
  {
    hide *;
    LoadedRegister(w, B, k, 0, 0, 5, 10, 15);
    LoadedRegister(w, B, k, 1, 4, 9, 14, 3);
    LoadedRegister(w, B, k, 2, 8, 13, 2, 7);
    LoadedRegister(w, B, k, 3, 12, 1, 6, 11);
    DiagonalWords(w, B, 4 * k, 16 * k);
  }

  lemma DiagonalWords(w: seq<Lanes>, B: seq<Word>, r: nat, o: nat)
    requires r + 4 <= |w| && o + 16 <= |B|
    requires RegisterIs(w, r, B, o, 0, 5, 10, 15) && RegisterIs(w, r + 1, B, o, 4, 9, 14, 3)
    requires RegisterIs(w, r + 2, B, o, 8, 13, 2, 7) && RegisterIs(w, r + 3, B, o, 12, 1, 6, 11)
    ensures RegistersAt(w, r) == Diagonals(BlockAt(B, o))
  {
  }

  /** The 16 words of a half go to their places in the union. */
  method LoadHalf(U: array<Word>, B: seq<Word>, k: nat)
    requires U.Length == 32 && |B| == 32 && k < 2
    modifies U
    ensures HalfLoaded(U[..], B, 16 * k)
    ensures forall m | 0 <= m < 32 && !(16 * k <= m < 16 * k + 16) :: U[m] == old(U[m])
  {
    hide Permuted;
    for i := 0 to 16
      invariant forall m: nat | m < i :: WordAtOffset(U[..], 16 * k, m) == B[16 * k + Permuted(m)]
      invariant forall m | 0 <= m < 32 && !(16 * k <= m < 16 * k + 16) :: U[m] == old(U[m])
    {
      PermutedIs(i);
      U[k * 16 + i] := B[k * 16 + i * 5 % 16];
    }
  }

  lemma PermutedIs(i: nat)
    requires i < 16
    ensures Permuted(i) == i * 5 % 16
  {
  }

  /** The words go back to where they came from. */
  method StoreHalf(B: array<Word>, u: seq<Word>, k: nat)
    requires B.Length == 32 && |u| == 32 && k < 2
    modifies B
    ensures HalfLoaded(u, B[..], 16 * k)
    ensures forall m | 0 <= m < 32 && !(16 * k <= m < 16 * k + 16) :: B[m] == old(B[m])
  {
    hide Permuted;
    for i := 0 to 16
      invariant forall m: nat | m < i :: WordAtOffset(u, 16 * k, m) == B[16 * k + Permuted(m)]
      invariant forall m | 0 <= m < 32 && !(16 * k <= m < 16 * k + 16) :: B[m] == old(B[m])
    {
      PermutedIs(i);
      forall m: nat | m < i
        ensures Permuted(m) != Permuted(i)
      {
        if Permuted(m) == Permuted(i) {
          PermutedOnce(m, i);
        }
      }
      B[k * 16 + i * 5 % 16] := u[k * 16 + i];
    }
  }

  lemma HalfKept(u: seq<Word>, B: seq<Word>, B': seq<Word>, o: nat)
    requires HalfLoaded(u, B, o) && |B'| == |B| && forall m | o <= m < o + 16 :: B'[m] == B[m]
    ensures HalfLoaded(u, B', o)
  {
  }

  lemma HalfKeptInMemory(u: seq<Word>, u': seq<Word>, B: seq<Word>, o: nat)
    requires HalfLoaded(u, B, o) && |u'| == |u| && forall m | o <= m < o + 16 :: u'[m] == u[m]
    ensures HalfLoaded(u', B, o)
  {
    forall i: nat | i < 16
      ensures WordAtOffset(u', o, i) == WordAtOffset(u, o, i)
    {
    }
  }

  lemma DiagonalsInjective(s: Block, t: Block)
    requires Diagonals(s) == Diagonals(t)
    ensures s == t
  {
  }

  /** The SSE2 form computes scrypt as well. */
  method ScryptSse2(f: Pbkdf, input: seq<bv8>, V: array<Lanes>) returns (output: seq<bv8>)
    requires |f.expand(input)| == 32 && V.Length >= 8 * 1024
    modifies V
    ensures output == Scrypt(f, input)
  {
    hide BlockAt, Mixed, Looked, BlockMix, XorPairs, Index, WordsOf, FilledSse2, Diagonals, InMemory, HalfLoaded;
    hide RegistersAt, Value, Masked;
    var B := f.expand(input);
    ghost var s := PairAt(B, 0);
    var X := LoadRegisters(B);
    MixedOneMore(s, 0);
    NothingFilledSse2(V[..], s);
    for i := 0 to 1024
      invariant FilledSse2(V[..], s, i) && Holds(X[..], 0, Mixed(s, i))
    {
      FillRowSse2(X, V, i, s);
      MixStepSse2(X, Mixed(s, i));
      MixedOneMore(s, i);
    }
    for i := 0 to 1024
      invariant FilledSse2(V[..], s, N) && Holds(X[..], 0, Looked(s, i))
    {
      FirstLane(X[..], Looked(s, i));
      MaskIsIndex(X[4].l0);
      var j := 8 * Value(Masked(X[4].l0, 1023));
      FilledAtSse2(V[..], s, Index(X[4].l0));
      XorRowSse2(X, V, j, Looked(s, i), Mixed(s, Index(X[4].l0)));
      MixStepSse2(X, XorPairs(Looked(s, i), Mixed(s, Integerify(Looked(s, i)))));
      MixedOneMore(s, i);
    }
    var W := StoreRegisters(X[..]);
    StoredPair(X[..], W, Looked(s, N));
    output := f.finish(input, W);
  }

  method LoadRegisters(B: seq<Word>) returns (X: array<Lanes>)
    requires |B| == 32
    ensures fresh(X) && X.Length == 8 && Holds(X[..], 0, PairAt(B, 0))
  {
    hide HalfLoaded, InMemory, Diagonals, BlockAt;
    var U := new Word[32];
    LoadHalf(U, B, 0);
    ghost var u := U[..];
    LoadHalf(U, B, 1);
    HalfKeptInMemory(u, U[..], B, 0);
    X := new Lanes[8](r requires 0 <= r < 8 && U.Length == 32 reads U =>
      Lanes(U[4 * r], U[4 * r + 1], U[4 * r + 2], U[4 * r + 3]));
    UnionView(X[..], U[..]);
    LoadedHalf(X[..], B, 0);
    LoadedHalf(X[..], B, 1);
  }

  /** Memory shows the registers' lanes one after the other. */
  lemma UnionView(w: seq<Lanes>, u: seq<Word>)
    requires |w| == 8 && |u| == 32
    requires forall r | 0 <= r < 8 :: w[r] == Lanes(u[4 * r], u[4 * r + 1], u[4 * r + 2], u[4 * r + 3])
    ensures InMemory(w) == u
  {
    hide Lane;
    forall m | 0 <= m < 32
      ensures InMemory(w)[m] == u[m]
    {
      UnionLane(w, u, m / 4, m % 4);
    }
  }

  lemma UnionLane(w: seq<Lanes>, u: seq<Word>, r: nat, l: nat)
    requires |w| == 8 && |u| == 32 && r < 8 && l < 4
    requires forall r | 0 <= r < 8 :: w[r] == Lanes(u[4 * r], u[4 * r + 1], u[4 * r + 2], u[4 * r + 3])
    ensures Lane(w[r], l) == u[4 * r + l]
  {
    assert w[r] == Lanes(u[4 * r], u[4 * r + 1], u[4 * r + 2], u[4 * r + 3]);
  }

  method StoreRegisters(w: seq<Lanes>) returns (W: seq<Word>)
    requires |w| == 8
    ensures |W| == 32 && HalfLoaded(InMemory(w), W, 0) && HalfLoaded(InMemory(w), W, 16)
  {
    hide HalfLoaded, InMemory;
    var B := new Word[32];
    StoreHalf(B, InMemory(w), 0);
    ghost var b := B[..];
    StoreHalf(B, InMemory(w), 1);
    HalfKept(InMemory(w), b, B[..], 0);
    W := B[..];
  }

  lemma StoredPair(w: seq<Lanes>, W: seq<Word>, s: Pair)
    requires |w| == 8 && Holds(w, 0, s) && |W| == 32
    requires HalfLoaded(InMemory(w), W, 0) && HalfLoaded(InMemory(w), W, 16)
    ensures W == WordsOf(s.b0) + WordsOf(s.b1)
  {
    hide InMemory, HalfLoaded, BlockAt, Diagonals, RegistersAt, WordsOf;
    LoadedHalf(w, W, 0);
    LoadedHalf(w, W, 1);
    DiagonalsInjective(BlockAt(W, 0), s.b0);
    DiagonalsInjective(BlockAt(W, 16), s.b1);
    WordsBack(W);
  }

  lemma NothingFilledSse2(V: seq<Lanes>, s: Pair)
    ensures FilledSse2(V, s, 0)
  {
  }

  lemma FilledAtSse2(V: seq<Lanes>, s: Pair, j: nat)
    requires FilledSse2(V, s, N) && j < N
    ensures Holds(V, 8 * j, Mixed(s, j))
  {
  }

  lemma FirstLane(w: seq<Lanes>, s: Pair)
    requires |w| == 8 && Holds(w, 0, s)
    ensures w[4].l0 == s.b1.x00
  {
  }
}
