/** How an entry of a full tried bucket is chosen for eviction. */
module AddrManDraws {
  import opened AddrMans
  import opened Arithmetic

  /** The bucket after drawing entries to its front, the place where the least recently tried of
      them now is, and the position it was drawn from. */
  datatype Draw = Draw(bucket: seq<int>, oldest: nat, pos: nat)

  predicate Known(info: Infos, bucket: seq<int>) {
    forall id | id in bucket :: id in info
  }

  predicate Draws(bucket: seq<int>, picks: seq<nat>) {
    |picks| <= |bucket| && forall i | 0 <= i < |picks| :: i <= picks[i] < |bucket|
  }

  function Drawn(info: Infos, bucket: seq<int>, picks: seq<nat>): (d: Draw)
    requires Draws(bucket, picks) && Known(info, bucket)
    ensures |d.bucket| == |bucket| && multiset(d.bucket) == multiset(bucket)
    ensures picks != [] ==> d.oldest < |picks| && d.pos == picks[d.oldest]
    decreases |picks|
  {
    if picks == [] then Draw(bucket, 0, 0)
    else
      var i := |picks| - 1;
      var d := Drawn(info, bucket, picks[..i]);
      var drawn := d.bucket[picks[i]];
      SameKnown(info, bucket, d.bucket);
      MultisetExchanged(d.bucket, i, picks[i]);
      var bucket' := Exchanged(d.bucket, i, picks[i]);
      if i == 0 || info[drawn].nLastSuccess < info[d.bucket[d.oldest]].nLastSuccess then Draw(bucket', i, picks[i])
      else Draw(bucket', d.oldest, d.pos)
  }

  /** The positions that random numbers draw: each from its own place onwards. */
  function Picks(rand: nat -> nat, size: nat): (picks: seq<nat>)
    ensures |picks| == MinNat(TRIED_ENTRIES_INSPECT_ON_EVICT, size)
    ensures forall i | 0 <= i < |picks| :: picks[i] == i + rand(i) % (size - i) < size
  {
    seq(MinNat(TRIED_ENTRIES_INSPECT_ON_EVICT, size),
        i requires 0 <= i < MinNat(TRIED_ENTRIES_INSPECT_ON_EVICT, size) => i + rand(i) % (size - i))
  }

  predicate PickedSoFar(picks: seq<nat>, rand: nat -> nat, size: nat) {
    |picks| <= size && forall i | 0 <= i < |picks| :: picks[i] == i + rand(i) % (size - i)
  }

  lemma PickNext(picks: seq<nat>, rand: nat -> nat, size: nat, pos: nat)
    requires PickedSoFar(picks, rand, size) && |picks| < size && pos == |picks| + rand(|picks|) % (size - |picks|)
    ensures PickedSoFar(picks + [pos], rand, size)
  {
  }

  lemma NothingPicked(rand: nat -> nat, size: nat)
    ensures PickedSoFar([], rand, size)
  {
  }

  lemma AllPicked(picks: seq<nat>, rand: nat -> nat, size: nat)
    requires PickedSoFar(picks, rand, size) && |picks| <= TRIED_ENTRIES_INSPECT_ON_EVICT
    requires |picks| == TRIED_ENTRIES_INSPECT_ON_EVICT || |picks| == size
    ensures picks == Picks(rand, size) && |picks| == MinNat(TRIED_ENTRIES_INSPECT_ON_EVICT, size)
  {
  }

  /** Only the times of the last success matter to the draws. */
  lemma {:induction false} DrawnSame(a: Infos, b: Infos, bucket: seq<int>, picks: seq<nat>)
    requires Draws(bucket, picks) && Known(a, bucket) && Known(b, bucket)
    requires forall id | id in a && id in b :: a[id].nLastSuccess == b[id].nLastSuccess
    ensures Drawn(a, bucket, picks) == Drawn(b, bucket, picks)
    decreases |picks|
  {
    if picks != [] {
      hide Known, Exchanged;
      DrawsFewer(bucket, picks);
      var before := picks[..|picks| - 1];
      DrawnSame(a, b, bucket, before);
      SameKnown(a, bucket, Drawn(a, bucket, before).bucket);
      SameKnown(b, bucket, Drawn(b, bucket, before).bucket);
    }
  }

  /** What SelectTried leaves: the bucket after the draws, and the position of the recorded one. */
  predicate DrawnFrom(info: Infos, bucket: seq<int>, bucket': seq<int>, pos: int, picks: seq<nat>) {
    && |picks| == MinNat(TRIED_ENTRIES_INSPECT_ON_EVICT, |bucket|)
    && Draws(bucket, picks) && Known(info, bucket)
    && bucket' == Drawn(info, bucket, picks).bucket && pos == Drawn(info, bucket, picks).pos
  }

  lemma SameElements(a: seq<int>, b: seq<int>)
    requires multiset(a) == multiset(b)
    ensures forall i | 0 <= i < |b| :: b[i] in a
  {
    forall i | 0 <= i < |b|
      ensures b[i] in a
    {
      assert b[i] in multiset(b);
    }
  }

  lemma SameKnown(info: Infos, a: seq<int>, b: seq<int>)
    requires Known(info, a) && multiset(a) == multiset(b)
    ensures forall i | 0 <= i < |b| :: b[i] in info
  {
    forall i | 0 <= i < |b|
      ensures b[i] in info
    {
      var x := b[i];
      assert x in multiset(b);
      assert x in a;
    }
  }

  lemma MultisetExchanged(q: seq<int>, i: nat, j: nat)
    requires i < |q| && j < |q|
    ensures multiset(Exchanged(q, i, j)) == multiset(q)
  {
  }

  lemma DrawOneMore(info: Infos, bucket: seq<int>, picks: seq<nat>, pos: nat)
    requires Draws(bucket, picks) && |picks| <= pos < |bucket| && Known(info, bucket)
    ensures Draws(bucket, picks + [pos])
    ensures var d, e := Drawn(info, bucket, picks), Drawn(info, bucket, picks + [pos]);
      && d.bucket[pos] in info && e.bucket == Exchanged(d.bucket, |picks|, pos)
      && e.bucket[|picks|] == d.bucket[pos]
      && (picks != [] ==> d.bucket[d.oldest] in info && e.bucket[d.oldest] == d.bucket[d.oldest])
      && if picks == [] || info[d.bucket[pos]].nLastSuccess < info[d.bucket[d.oldest]].nLastSuccess then
           e.oldest == |picks| && e.pos == pos
         else e.oldest == d.oldest && e.pos == d.pos
  {
    hide Drawn, Exchanged, Draws, Known;
    DrawsMore(bucket, picks, pos);
    DrawnUnfolds(info, bucket, picks, pos);
    var d := Drawn(info, bucket, picks);
    SameKnown(info, bucket, d.bucket);
    ExchangedAt(d.bucket, |picks|, pos);
  }

  lemma DrawnUnfolds(info: Infos, bucket: seq<int>, picks: seq<nat>, pos: nat)
    requires Draws(bucket, picks + [pos]) && Draws(bucket, picks) && Known(info, bucket)
    ensures var d := Drawn(info, bucket, picks);
      && |picks| <= pos < |d.bucket| && d.bucket[pos] in info && (picks != [] ==> d.bucket[d.oldest] in info)
      && var next := Exchanged(d.bucket, |picks|, pos);
         Drawn(info, bucket, picks + [pos]) ==
           if picks == [] || info[d.bucket[pos]].nLastSuccess < info[d.bucket[d.oldest]].nLastSuccess then
             Draw(next, |picks|, pos)
           else Draw(next, d.oldest, d.pos)
  {
    hide Exchanged, Known;
    var more := picks + [pos];
    assert more[|picks|] == pos && more[..|picks|] == picks;
    SameKnown(info, bucket, Drawn(info, bucket, picks).bucket);
  }

  lemma DrawsMore(bucket: seq<int>, picks: seq<nat>, pos: nat)
    requires Draws(bucket, picks) && |picks| <= pos < |bucket|
    ensures Draws(bucket, picks + [pos]) && (picks + [pos])[..|picks|] == picks
  {
  }

  lemma ExchangedAt(q: seq<int>, i: nat, j: nat)
    requires i <= j < |q|
    ensures |Exchanged(q, i, j)| == |q| && Exchanged(q, i, j)[i] == q[j]
    ensures forall k | 0 <= k < i :: Exchanged(q, i, j)[k] == q[k]
  {
  }

  /** The variables of SelectTried after some draws. */
  predicate DrawnSoFar(info: Infos, bucket: seq<int>, bucket': seq<int>, picks: seq<nat>, nOldest: int, pos: int) {
    && Draws(bucket, picks) && Known(info, bucket) && NONE !in info
    && var d := Drawn(info, bucket, picks);
       && bucket' == d.bucket
       && if picks == [] then nOldest == NONE
          else nOldest == d.bucket[d.oldest] && nOldest in info && pos == d.pos
  }

  lemma DrawsStart(info: Infos, bucket: seq<int>, pos: int)
    requires Known(info, bucket) && NONE !in info
    ensures DrawnSoFar(info, bucket, bucket, [], NONE, pos)
  {
  }

  lemma DrawStep(info: Infos, bucket: seq<int>, bucket': seq<int>, picks: seq<nat>, nOldest: int, pos: int, nPos: nat)
    requires DrawnSoFar(info, bucket, bucket', picks, nOldest, pos) && |picks| <= nPos < |bucket'|
    ensures bucket'[nPos] in info && (nOldest == NONE || nOldest in info)
    ensures var next := bucket'[nPos := bucket'[|picks|]][|picks| := bucket'[nPos]];
      && next == Exchanged(bucket', |picks|, nPos)
      && if nOldest == NONE || info[bucket'[nPos]].nLastSuccess < info[nOldest].nLastSuccess then
           DrawnSoFar(info, bucket, next, picks + [nPos], bucket'[nPos], nPos)
         else DrawnSoFar(info, bucket, next, picks + [nPos], nOldest, pos)
  {
    DrawOneMore(info, bucket, picks, nPos);
    hide Drawn;
  }

  lemma DrawsEnd(info: Infos, bucket: seq<int>, bucket': seq<int>, picks: seq<nat>, nOldest: int, pos: int)
    requires DrawnSoFar(info, bucket, bucket', picks, nOldest, pos) && bucket != []
    requires |picks| == MinNat(TRIED_ENTRIES_INSPECT_ON_EVICT, |bucket|)
    ensures DrawnFrom(info, bucket, bucket', pos, picks)
    ensures |bucket'| == |bucket| && multiset(bucket') == multiset(bucket) && 0 <= pos < |bucket|
  {
    hide Drawn;
  }

  lemma NothingDrawn(info: Infos, bucket: seq<int>)
    requires Known(info, bucket)
    ensures Draws(bucket, []) && Drawn(info, bucket, []).bucket == bucket
  {
  }

  lemma DrawsFewer(bucket: seq<int>, picks: seq<nat>)
    requires Draws(bucket, picks) && picks != []
    ensures var i := |picks| - 1;
      Draws(bucket, picks[..i]) && i <= picks[i] < |bucket| && picks == picks[..i] + [picks[i]]
  {
  }

  /** The recorded entry is the least recently tried of the drawn ones. */
  lemma {:induction false} DrawnIsOldest(info: Infos, bucket: seq<int>, picks: seq<nat>)
    requires Draws(bucket, picks) && picks != [] && Known(info, bucket)
    ensures var d := Drawn(info, bucket, picks);
      forall j | 0 <= j < |picks| ::
        d.bucket[j] in info && d.bucket[d.oldest] in info &&
        info[d.bucket[d.oldest]].nLastSuccess <= info[d.bucket[j]].nLastSuccess
    decreases |picks|
  {
    hide Drawn, Exchanged, Draws, Known;
    var i := |picks| - 1;
    var before := picks[..i];
    DrawsFewer(bucket, picks);
    DrawOneMore(info, bucket, before, picks[i]);
    ExchangedAt(Drawn(info, bucket, before).bucket, i, picks[i]);
    if before != [] {
      DrawnIsOldest(info, bucket, before);
    }
  }

  /** When entry `id` had its last success. */
  function TriedAt(info: Infos, id: int): int
    requires id in info
  {
    info[id].nLastSuccess
  }

  /** The entry handed to eviction, the one at the returned position, is a least recently tried one
      among the drawn. */
  predicate EvictsOldest(info: Infos, bucket: seq<int>, picks: seq<nat>)
    requires Draws(bucket, picks) && picks != [] && Known(info, bucket)
  {
    var d := Drawn(info, bucket, picks);
    SameElements(bucket, d.bucket);
    forall j | 0 <= j < |picks| :: TriedAt(info, d.bucket[d.pos]) <= TriedAt(info, d.bucket[j])
  }

  /** All entries of the bucket had their last success at the same time. */
  predicate TriedAlike(info: Infos, bucket: seq<int>)
    requires Known(info, bucket)
  {
    forall i, j | 0 <= i < |bucket| && 0 <= j < |bucket| :: TriedAt(info, bucket[i]) == TriedAt(info, bucket[j])
  }

  predicate IsOldest(info: Infos, bucket: seq<int>, j: nat)
    requires j < |bucket| && Known(info, bucket)
  {
    forall i | 0 <= i < |bucket| :: TriedAt(info, bucket[j]) <= TriedAt(info, bucket[i])
  }

  lemma {:induction false} OldestOf(info: Infos, bucket: seq<int>) returns (j: nat)
    requires bucket != [] && Known(info, bucket)
    ensures j < |bucket| && IsOldest(info, bucket, j)
    decreases |bucket|
  {
    j := 0;
    if |bucket| > 1 {
      var rest := bucket[..|bucket| - 1];
      j := OldestOf(info, rest);
      assert forall i | 0 <= i < |rest| :: bucket[i] == rest[i];
      if TriedAt(info, bucket[|rest|]) < TriedAt(info, bucket[j]) {
        j := |rest|;
      }
    }
  }

  /** What the draws come to. */
  predicate DrawnIs(info: Infos, bucket: seq<int>, picks: seq<nat>, d: Draw) {
    && Draws(bucket, picks) && picks != [] && Known(info, bucket)
    && |d.bucket| == |bucket| && d.oldest < |picks| && d.pos < |bucket|
    && Drawn(info, bucket, picks) == d
  }

  lemma FirstDraw(info: Infos, bucket: seq<int>, pos: nat)
    requires pos < |bucket| && Known(info, bucket)
    ensures DrawnIs(info, bucket, [pos], Draw(Exchanged(bucket, 0, pos), 0, pos))
  {
    hide Drawn, Exchanged;
    NothingDrawn(info, bucket);
    DrawOneMore(info, bucket, [], pos);
    assert [] + [pos] == [pos];
    SameLength(info, bucket, [pos]);
  }

  lemma SameLength(info: Infos, bucket: seq<int>, picks: seq<nat>)
    requires Draws(bucket, picks) && Known(info, bucket)
    ensures |Drawn(info, bucket, picks).bucket| == |bucket|
    ensures forall i | 0 <= i < |bucket| :: Drawn(info, bucket, picks).bucket[i] in bucket
  {
    SameElements(bucket, Drawn(info, bucket, picks).bucket);
    hide Drawn;
  }

  /** Once an oldest entry is recorded, further draws do not change which one that is. */
  lemma RecordStays(info: Infos, bucket: seq<int>, picks: seq<nat>, d: Draw, oldest: nat, pos: nat)
    requires DrawnIs(info, bucket, picks, d) && |picks| <= pos < |bucket|
    requires oldest < |bucket| && IsOldest(info, bucket, oldest) && d.bucket[d.oldest] in info
    requires TriedAt(info, d.bucket[d.oldest]) == TriedAt(info, bucket[oldest])
    ensures DrawnIs(info, bucket, picks + [pos], Draw(Exchanged(d.bucket, |picks|, pos), d.oldest, d.pos))
  {
    hide Drawn, Exchanged;
    SameLength(info, bucket, picks);
    DrawOneMore(info, bucket, picks, pos);
    SameLength(info, bucket, picks + [pos]);
  }

  /** Another entry is exchanged for the recorded one when it is drawn and older. */
  lemma RecordChanges(info: Infos, bucket: seq<int>, picks: seq<nat>, d: Draw, pos: nat)
    requires DrawnIs(info, bucket, picks, d) && |picks| <= pos < |bucket|
    requires d.bucket[d.oldest] in info && d.bucket[pos] in info
    requires TriedAt(info, d.bucket[pos]) < TriedAt(info, d.bucket[d.oldest])
    ensures DrawnIs(info, bucket, picks + [pos], Draw(Exchanged(d.bucket, |picks|, pos), |picks|, pos))
  {
    hide Drawn, Exchanged;
    DrawOneMore(info, bucket, picks, pos);
    SameLength(info, bucket, picks + [pos]);
  }

  lemma EvictsYounger(info: Infos, bucket: seq<int>, picks: seq<nat>, d: Draw, j: nat)
    requires DrawnIs(info, bucket, picks, d) && j < |picks| && d.bucket[d.pos] in info && d.bucket[j] in info
    requires TriedAt(info, d.bucket[d.pos]) > TriedAt(info, d.bucket[j])
    ensures Draws(bucket, picks) && !EvictsOldest(info, bucket, picks)
  {
    hide Drawn;
  }

  /** The last two of four draws, from where they are drawn to. */
  lemma TwoInPlace(info: Infos, bucket: seq<int>, picks: seq<nat>, d: Draw, oldest: nat)
    requires DrawnIs(info, bucket, picks, d) && |picks| == 2 && |bucket| >= 4
    requires oldest < |bucket| && IsOldest(info, bucket, oldest) && d.bucket[d.oldest] in info
    requires TriedAt(info, d.bucket[d.oldest]) == TriedAt(info, bucket[oldest])
    ensures DrawnIs(info, bucket, picks + [2, 3], d)
  {
    hide DrawnIs, IsOldest, TriedAt;
    DrawSizes(info, bucket, picks, d);
    RecordStays(info, bucket, picks, d, oldest, 2);
    InPlace(d.bucket, 2);
    RecordStays(info, bucket, picks + [2], d, oldest, 3);
    InPlace(d.bucket, 3);
    assert picks + [2] + [3] == picks + [2, 3];
  }

  lemma DrawSizes(info: Infos, bucket: seq<int>, picks: seq<nat>, d: Draw)
    requires DrawnIs(info, bucket, picks, d)
    ensures |d.bucket| == |bucket| && d.pos < |bucket| && d.oldest < |picks| <= |bucket|
  {
    hide Drawn;
  }

  lemma InPlace(q: seq<int>, i: nat)
    requires i < |q|
    ensures Exchanged(q, i, i) == q
  {
  }

  /** When the first entry is younger than an oldest one, drawing that one first evicts the younger. */
  lemma FirstIsYounger(info: Infos, bucket: seq<int>, j: nat)
    requires |bucket| >= 4 && Known(info, bucket) && j < |bucket| && IsOldest(info, bucket, j)
    requires TriedAt(info, bucket[0]) > TriedAt(info, bucket[j])
    ensures Draws(bucket, [j, 1, 2, 3]) && !EvictsOldest(info, bucket, [j, 1, 2, 3])
  {
    hide DrawnIs, Draws, EvictsOldest, IsOldest;
    var q := Exchanged(bucket, 0, j);
    FirstDraw(info, bucket, j);
    RecordStays(info, bucket, [j], Draw(q, 0, j), j, 1);
    InPlace(q, 1);
    assert [j] + [1] == [j, 1] && [j, 1] + [2, 3] == [j, 1, 2, 3];
    TwoInPlace(info, bucket, [j, 1], Draw(q, 0, j), j);
    EvictsYounger(info, bucket, [j, 1, 2, 3], Draw(q, 0, j), 0);
  }

  /** When the first two are oldest, a younger one can be drawn to the place that is remembered. */
  lemma LaterIsYounger(info: Infos, bucket: seq<int>, i: nat)
    requires |bucket| >= 4 && Known(info, bucket) && 2 <= i < |bucket| && IsOldest(info, bucket, 0)
    requires TriedAt(info, bucket[1]) == TriedAt(info, bucket[0]) < TriedAt(info, bucket[i])
    ensures Draws(bucket, [1, i, 2, 3]) && !EvictsOldest(info, bucket, [1, i, 2, 3])
  {
    hide DrawnIs, Draws, EvictsOldest, IsOldest;
    var p := Exchanged(bucket, 0, 1);
    var q := Exchanged(p, 1, i);
    FirstDraw(info, bucket, 1);
    RecordStays(info, bucket, [1], Draw(p, 0, 1), 0, i);
    assert [1] + [i] == [1, i] && [1, i] + [2, 3] == [1, i, 2, 3];
    TwoInPlace(info, bucket, [1, i], Draw(q, 0, 1), 0);
    EvictsYounger(info, bucket, [1, i, 2, 3], Draw(q, 0, 1), 0);
  }

  /** Drawing twice from the third place leaves the second entry there. */
  lemma ThirdTwice(info: Infos, bucket: seq<int>, q: seq<int>) returns (oldest: nat)
    requires |bucket| >= 4 && Known(info, bucket) && IsOldest(info, bucket, 0)
    requires q == Exchanged(Exchanged(bucket, 0, 2), 1, 2)
    ensures oldest < 2 && TriedAt(info, q[oldest]) == TriedAt(info, bucket[0])
    ensures DrawnIs(info, bucket, [2] + [2], Draw(q, oldest, 2))
  {
    assert TriedAt(info, bucket[0]) <= TriedAt(info, bucket[2]);
    hide DrawnIs, IsOldest;
    var p := Exchanged(bucket, 0, 2);
    FirstDraw(info, bucket, 2);
    if TriedAt(info, bucket[0]) < TriedAt(info, bucket[2]) {
      oldest := 1;
      RecordChanges(info, bucket, [2], Draw(p, 0, 2), 2);
    } else {
      oldest := 0;
      RecordStays(info, bucket, [2], Draw(p, 0, 2), 0, 2);
    }
  }

  /** So when the second is younger than the first, which is oldest, the second is evicted. */
  lemma SecondIsYounger(info: Infos, bucket: seq<int>)
    requires |bucket| >= 4 && Known(info, bucket) && IsOldest(info, bucket, 0)
    requires TriedAt(info, bucket[0]) < TriedAt(info, bucket[1])
    ensures Draws(bucket, [2] + [2] + [2, 3]) && !EvictsOldest(info, bucket, [2] + [2] + [2, 3])
  {
    hide DrawnIs, Draws, EvictsOldest, IsOldest;
    var q := Exchanged(Exchanged(bucket, 0, 2), 1, 2);
    var oldest := ThirdTwice(info, bucket, q);
    TwoInPlace(info, bucket, [2] + [2], Draw(q, oldest, 2), 0);
    EvictsYounger(info, bucket, [2] + [2] + [2, 3], Draw(q, oldest, 2), 1);
  }

  /** From a bucket whose entries were not all tried at the same time, four draws can evict an entry
      that was tried later than another drawn one. */
  lemma YoungerCanBeEvicted(info: Infos, bucket: seq<int>) returns (picks: seq<nat>)
    requires |bucket| >= 4 && Known(info, bucket) && !TriedAlike(info, bucket)
    ensures |picks| == 4 && Draws(bucket, picks) && !EvictsOldest(info, bucket, picks)
  {
    hide Drawn, Draws, EvictsOldest;
    var j := OldestOf(info, bucket);
    if TriedAt(info, bucket[0]) > TriedAt(info, bucket[j]) {
      FirstIsYounger(info, bucket, j);
      picks := [j, 1, 2, 3];
    } else if TriedAt(info, bucket[0]) < TriedAt(info, bucket[1]) {
      SecondIsYounger(info, bucket);
      picks := [2] + [2] + [2, 3];
    } else {
      var i :| 0 <= i < |bucket| && TriedAt(info, bucket[i]) != TriedAt(info, bucket[0]);
      LaterIsYounger(info, bucket, i);
      picks := [1, i, 2, 3];
    }
  }

  /** Whatever is drawn, the entry handed to eviction is a least recently tried one of the drawn:
      true of a bucket exactly when all its entries were last tried at the same time. */
  lemma EvictsOldestIff(info: Infos, bucket: seq<int>)
    requires |bucket| >= 4 && Known(info, bucket)
    ensures TriedAlike(info, bucket) <==>
      forall picks | |picks| == 4 && Draws(bucket, picks) ::
        EvictsOldest(info, bucket, picks)
  {
    hide EvictsOldest, TriedAlike, Draws;
    if TriedAlike(info, bucket) {
      forall picks | |picks| == 4 && Draws(bucket, picks)
        ensures EvictsOldest(info, bucket, picks)
      {
        AlikeEvictsOldest(info, bucket, picks);
      }
    } else {
      var picks := YoungerCanBeEvicted(info, bucket);
    }
  }

  lemma AlikeEvictsOldest(info: Infos, bucket: seq<int>, picks: seq<nat>)
    requires Draws(bucket, picks) && picks != [] && Known(info, bucket) && TriedAlike(info, bucket)
    ensures EvictsOldest(info, bucket, picks)
  {
    hide Drawn;
    var d := Drawn(info, bucket, picks);
    SameElements(bucket, d.bucket);
  }

  lemma BucketKnownTried(h: Hashes, info: Infos, vvTried: seq<seq<int>>, k: nat)
    requires TriedBuckets(h, info, vvTried) && k < |vvTried|
    ensures Known(info, vvTried[k])
  {
    forall id | id in vvTried[k]
      ensures id in info
    {
      var p :| 0 <= p < |vvTried[k]| && vvTried[k][p] == id;
    }
  }
}
