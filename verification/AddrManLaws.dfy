/** What the tables and the rules of the address manager come to. */
module AddrManLaws {
  import opened AddrMans
  import opened AddrManOps

  /** The sizes of consistent tables. */
  lemma Limits(h: Hashes, s: Tables)
    requires Indexed(h, s, NONE)
    ensures |s.vvTried| == 64 && forall k | 0 <= k < 64 :: |s.vvTried[k]| <= 64
    ensures |s.vvNew| == 256 && forall b | 0 <= b < 256 :: |s.vvNew[b]| <= 64
    ensures forall id | id in s.mapInfo && !s.mapInfo[id].fInTried :: 1 <= |Holders(s.vvNew, id)| <= 4
    ensures forall id | id in s.mapInfo && s.mapInfo[id].fInTried :: Holders(s.vvNew, id) == {}
  {
    hide AddrIndex, RandomIndex, Counts, Holders;
    forall id | id in s.mapInfo && s.mapInfo[id].fInTried
      ensures Holders(s.vvNew, id) == {}
    {
      assert |Holders(s.vvNew, id)| == 0;
    }
  }

  // ---------------------------------------------------------------- buckets of a group

  /** The buckets that hashing a group and a number below `n` gives. */
  function BucketsOf(hash: (nat, nat) -> nat, g: nat, n: nat, count: nat): (r: set<nat>)
    requires count > 0
    ensures |r| <= n && forall i: nat | i < n :: hash(g, i) % count in r
    decreases n
  {
    if n == 0 then {} else BucketsOf(hash, g, n - 1, count) + {hash(g, n - 1) % count}
  }

  /** The tried addresses of one group share 4 buckets of 64. */
  lemma TriedBucketsOfGroup(h: Hashes, g: nat)
    ensures var buckets := BucketsOf(h.tried2, g, 4, 64);
      |buckets| <= 4 && forall e: AddrInfo | h.group(e.service.ip) == g :: h.TriedBucket(e) in buckets
  {
  }

  /** The new addresses that come from one source group share 32 buckets of 256. */
  lemma NewBucketsOfSource(h: Hashes, g: nat)
    ensures var buckets := BucketsOf(h.new2, g, 32, 256);
      |buckets| <= 32 && forall e: AddrInfo, src: NetAddr | h.group(src) == g :: h.NewBucket(e, src) in buckets
  {
  }

  function TriedOfGroup(h: Hashes, info: Infos, g: nat): set<int> {
    set id | id in info && info[id].fInTried && h.group(info[id].service.ip) == g
  }

  function Elements(q: seq<int>): (s: set<int>)
    ensures |s| <= |q| && forall x :: x in s <==> x in q
  {
    if q == [] then {} else Elements(q[..|q| - 1]) + {q[|q| - 1]}
  }

  /** The ids in the buckets of a set. */
  function Inside(vvTried: seq<seq<int>>, buckets: set<nat>): (s: set<int>) {
    set k, id | k in buckets && k < |vvTried| && id in Elements(vvTried[k]) :: id
  }

  lemma {:induction false} InsideSize(vvTried: seq<seq<int>>, buckets: set<nat>)
    requires forall k | 0 <= k < |vvTried| :: |vvTried[k]| <= 64
    ensures |Inside(vvTried, buckets)| <= 64 * |buckets|
    decreases |buckets|
  {
    hide Elements;
    if buckets == {} {
      assert Inside(vvTried, buckets) == {};
    } else {
      var k :| k in buckets;
      InsideSize(vvTried, buckets - {k});
      var here: set<int> := if k < |vvTried| then Elements(vvTried[k]) else {};
      forall id | id in Inside(vvTried, buckets)
        ensures id in Inside(vvTried, buckets - {k}) + here
      {
        var b :| b in buckets && b < |vvTried| && id in Elements(vvTried[b]);
        if b != k {
          assert b in buckets - {k};
        }
      }
      SubsetSize(Inside(vvTried, buckets), Inside(vvTried, buckets - {k}) + here);
    }
  }

  lemma SubsetSize(s: set<int>, t: set<int>)
    requires s <= t
    ensures |s| <= |t|
  {
    assert t == s + (t - s);
  }

  /** So no group can have more than 256 of the 4096 tried addresses. */
  lemma GroupLimit(h: Hashes, s: Tables, g: nat)
    requires Indexed(h, s, NONE)
    ensures |TriedOfGroup(h, s.mapInfo, g)| <= 256
  {
    hide AddrIndex, RandomIndex, Counts, RefCounts, NewBuckets, Hashes.TriedBucket;
    var buckets := BucketsOf(h.tried2, g, 4, 64);
    TriedBucketsOfGroup(h, g);
    Limits(h, s);
    InsideSize(s.vvTried, buckets);
    forall id | id in TriedOfGroup(h, s.mapInfo, g)
      ensures id in Inside(s.vvTried, buckets)
    {
      var k := h.TriedBucket(s.mapInfo[id]);
      assert id in Elements(s.vvTried[k]);
    }
    SubsetSize(TriedOfGroup(h, s.mapInfo, g), Inside(s.vvTried, buckets));
  }

  // ---------------------------------------------------------------- what is not worth keeping

  /** An entry is terrible unless it was tried within the last minute, when it comes from the future,
      was not seen for a month, never succeeded in three attempts, or has failed ten times and not
      succeeded for a week. */
  lemma TerribleIff(e: AddrInfo, nNow: int)
    ensures e.IsTerrible(nNow) <==>
      && (e.nLastTry == 0 || e.nLastTry < nNow - 60)
      && (|| e.nTime > nNow + 600
          || e.nTime == 0
          || e.nTime < nNow - 2_592_000
          || (e.nLastSuccess == 0 && e.nAttempts >= 3)
          || (e.nLastSuccess < nNow - 604_800 && e.nAttempts >= 10))
  {
  }

  // ---------------------------------------------------------------- hearing of an address again

  /** The time of an entry moves when the announcement is ahead of it by more than the penalty and an
      hour, or a day for an announcement that is itself a day old; and always from 0. */
  lemma TimeMovesIff(told: int, heard: int, nNow: int, nTimePenalty: int)
    requires told > 0 && heard - nTimePenalty > 0 && nTimePenalty >= 0
    ensures HeardTime(told, heard, nNow, nTimePenalty) != told <==>
      heard - nTimePenalty - told > if heard > nNow - 86_400 then 3600 else 86_400
    ensures HeardTime(told, heard, nNow, nTimePenalty) in {told, heard - nTimePenalty}
    ensures HeardTime(0, heard, nNow, nTimePenalty) == heard - nTimePenalty
  {
  }

  /** It never moves back, and the same announcement moves it only once. */
  lemma TimeMovesForward(told: int, heard: int, nNow: int, nTimePenalty: int)
    requires told >= 0
    ensures HeardTime(told, heard, nNow, nTimePenalty) >= told
    ensures var once := HeardTime(told, heard, nNow, nTimePenalty);
      once != 0 && nTimePenalty >= 0 ==> HeardTime(once, heard, nNow, nTimePenalty) == once
    ensures HeardTime(told, 0, nNow, nTimePenalty) == told
  {
  }
}
