/** The operations of the address manager. */
module AddrManOps {
  import opened AddrManDraws
  import opened AddrManFiles
  import opened AddrMans
  import opened Arithmetic

  /** A random number below the bound, or 0 when there is none. */
  function GetRandInt(nMax: int, rand: nat): (r: int)
    ensures if nMax > 0 then 0 <= r < nMax else r == 0
  {
    if nMax <= 0 then 0 else rand % nMax
  }

  /** The random numbers after the first. */
  function Later(rand: nat -> nat): nat -> nat {
    (i: nat) => rand(i + 1)
  }

  /** The lifted time of an entry that is heard of again, or the old one. */
  function HeardTime(old_: int, heard: int, nNow: int, nTimePenalty: int): int {
    var nUpdateInterval := if nNow - heard < 24 * 60 * 60 then 60 * 60 else 24 * 60 * 60;
    if heard != 0 && (old_ == 0 || old_ < heard - nUpdateInterval - nTimePenalty) then Max0(heard - nTimePenalty)
      else old_
  }

  function Max0(x: int): int {
    if x > 0 then x else 0
  }

  /** How many elements are smaller: the place in ascending order. */
  function Rank(s: set<int>, x: int): nat {
    |set y | y in s && y < x|
  }

  /** Of the elements of `part` that have these places in `s`, `oldest` has the lowest time, and is the
      first to have it. */
  predicate IsOldestOf(info: Infos, s: set<int>, part: set<int>, places: set<int>, oldest: int)
    requires s <= info.Keys && part <= s
  {
    && oldest in part && Rank(s, oldest) in places
    && forall id | id in part && Rank(s, id) in places ::
         info[oldest].nTime < info[id].nTime || (info[oldest].nTime == info[id].nTime && oldest <= id)
  }

  predicate IsOldestAt(info: Infos, s: set<int>, places: set<int>, oldest: int) {
    s <= info.Keys && IsOldestOf(info, s, s, places, oldest)
  }

  /** The least of the elements that are left comes next. */
  lemma NextRank(s: set<int>, remaining: set<int>, least: int)
    requires remaining <= s && least in remaining && forall y | y in remaining :: least <= y
    requires forall id, y | id in s && id !in remaining && y in remaining :: id < y
    ensures Rank(s, least) == |s| - |remaining|
  {
    var below := set y | y in s && y < least;
    assert below == s - remaining;
    assert s == below + remaining && below * remaining == {};
  }

  lemma OneMoreLooked(info: Infos, s: set<int>, remaining: set<int>, places: set<int>, oldest: int, it: int)
    requires remaining <= s <= info.Keys && it in remaining && forall y | y in remaining :: it <= y
    requires forall id, y | id in s && id !in remaining && y in remaining :: id < y
    requires oldest == -1 ==> forall id | id in s && id !in remaining :: Rank(s, id) !in places
    requires oldest != -1 ==> IsOldestOf(info, s, s - remaining, places, oldest)
    ensures var next := if Rank(s, it) in places && (oldest == -1 || info[it].nTime < info[oldest].nTime) then it
              else oldest;
      if Rank(s, it) !in places && oldest == -1 then
        forall id | id in s && id !in remaining - {it} :: Rank(s, id) !in places
      else IsOldestOf(info, s, s - (remaining - {it}), places, next)
  {
    hide Rank;
  }

  /** The entry that a full new bucket gives up: the first terrible one, or else the oldest of those at
      four random places. */
  predicate IsVictim(info: Infos, bucket: set<int>, nNow: int, rand: nat -> nat, victim: int) {
    && bucket <= info.Keys && victim in bucket
    && if exists id | id in bucket :: info[id].IsTerrible(nNow) then
         && info[victim].IsTerrible(nNow)
         && forall id | id in bucket && id < victim :: !info[id].IsTerrible(nNow)
       else
         var n := |bucket|;
         IsOldestAt(info, bucket, {GetRandInt(n, rand(0)), GetRandInt(n, rand(1)), GetRandInt(n, rand(2)),
                                   GetRandInt(n, rand(3))}, victim)
  }

  lemma IsVictimSame(info: Infos, info': Infos, bucket: set<int>, nNow: int, rand: nat -> nat, victim: int)
    requires IsVictim(info, bucket, nNow, rand, victim) && bucket <= info'.Keys
    requires forall id | id in bucket :: info'[id] == info[id]
    ensures IsVictim(info', bucket, nNow, rand, victim)
  {
    hide Rank, AddrInfo.IsTerrible, GetRandInt;
  }

  lemma {:induction false} LeastExists(s: set<int>)
    requires s != {}
    ensures exists m :: m in s && forall y | y in s :: m <= y
    decreases |s|
  {
    if forall x :: x !in s {
      assert false;
    }
    var x :| x in s;
    var rest := s - {x};
    assert s == rest + {x};
    if rest != {} {
      LeastExists(rest);
      var m :| m in rest && forall y | y in rest :: m <= y;
      var least := if x < m then x else m;
      assert least in s && forall y | y in s :: least <= y;
    }
  }

  class AddrMan {
    const h: Hashes
    const isRoutable: NetAddr -> bool
    var nIdCount: int
    var mapInfo: Infos
    var mapAddr: map<NetAddr, int>
    var vRandom: seq<int>
    var nTried: int
    var vvTried: seq<seq<int>>
    var nNew: int
    var vvNew: seq<set<int>>

    function State(): Tables
      reads this
    {
      Tables(nIdCount, mapInfo, mapAddr, vRandom, nTried, vvTried, nNew, vvNew)
    }

    /** All indexes agree. */
    ghost predicate Valid()
      reads this
    {
      Indexed(h, State(), NONE)
    }

    constructor (h: Hashes, isRoutable: NetAddr -> bool)
      ensures this.h == h && this.isRoutable == isRoutable
      ensures State() == EMPTY && Valid() && TimesPlausible(mapInfo)
    {
      this.h, this.isRoutable := h, isRoutable;
      nIdCount, mapInfo, mapAddr, vRandom := 0, map[], map[], [];
      nTried, nNew := 0, 0;
      vvTried := seq(TRIED_BUCKET_COUNT, _ => []);
      vvNew := seq(NEW_BUCKET_COUNT, _ => {});
      new;
      EmptyIsConsistent(h);
    }

    /** The id of the entry with this network address, or NONE. */
    method Find(addr: NetAddr) returns (nId: int)
      ensures nId == if addr in mapAddr && mapAddr[addr] in mapInfo then mapAddr[addr] else NONE
    {
      if addr !in mapAddr {
        return NONE;
      }
      nId := mapAddr[addr];
      if nId !in mapInfo {
        return NONE;
      }
    }

    method Create(addr: Address, addrSource: NetAddr) returns (nId: int)
      modifies this
      ensures nId == old(nIdCount) && State() == Created(old(State()), NewInfo(addr, addrSource))
    {
      nId := nIdCount;
      nIdCount := nIdCount + 1;
      mapInfo := mapInfo[nId := NewInfo(addr, addrSource)];
      mapAddr := mapAddr[addr.service.ip := nId];
      mapInfo := mapInfo[nId := mapInfo[nId].(nRandomPos := |vRandom|)];
      vRandom := vRandom + [nId];
      assert mapInfo == old(mapInfo)[nId := NewInfo(addr, addrSource).(nRandomPos := |old(vRandom)|)];
    }

    method SwapRandom(nRndPos1: nat, nRndPos2: nat)
      requires nRndPos1 < |vRandom| && nRndPos2 < |vRandom|
      requires vRandom[nRndPos1] in mapInfo && vRandom[nRndPos2] in mapInfo
      modifies this`mapInfo, this`vRandom
      ensures State() == Swapped(old(State()), nRndPos1, nRndPos2)
    {
      if nRndPos1 == nRndPos2 {
        return;
      }
      var nId1 := vRandom[nRndPos1];
      var nId2 := vRandom[nRndPos2];
      mapInfo := mapInfo[nId1 := mapInfo[nId1].(nRandomPos := nRndPos2)];
      mapInfo := mapInfo[nId2 := mapInfo[nId2].(nRandomPos := nRndPos1)];
      vRandom := vRandom[nRndPos1 := nId2];
      vRandom := vRandom[nRndPos2 := nId1];
      assert vRandom == old(vRandom)[nRndPos1 := nId2][nRndPos2 := nId1];
    }

    /** Draws up to four entries of a tried bucket to its front and returns the position where the
        least recently tried of them was found. */
    method SelectTried(nKBucket: nat, rand: nat -> nat) returns (nOldestPos: int)
      requires TriedBuckets(h, mapInfo, vvTried) && nKBucket < |vvTried| && |vvTried[nKBucket]| > 0
      requires NONE !in mapInfo
      modifies this`vvTried
      ensures TriedBuckets(h, mapInfo, vvTried)
      ensures vvTried == old(vvTried)[nKBucket := vvTried[nKBucket]]
      ensures multiset(vvTried[nKBucket]) == multiset(old(vvTried[nKBucket]))
      ensures |vvTried[nKBucket]| == |old(vvTried[nKBucket])|
      ensures 0 <= nOldestPos < |vvTried[nKBucket]|
      ensures DrawnFrom(mapInfo, old(vvTried[nKBucket]), vvTried[nKBucket], nOldestPos,
                        Picks(rand, |old(vvTried[nKBucket])|))
    {
      hide TriedBuckets, Draws, Drawn, DrawnSoFar, DrawnFrom, Exchanged, Picks, PickedSoFar, MinNat;
      var nOldest := -1;
      nOldestPos := -1;
      ghost var picks: seq<nat> := [];
      ghost var bucket := vvTried[nKBucket];
      BucketKnownTried(h, mapInfo, vvTried, nKBucket);
      DrawsStart(mapInfo, bucket, nOldestPos);
      NothingPicked(rand, |bucket|);
      var i := 0;
      while i < TRIED_ENTRIES_INSPECT_ON_EVICT && i < |vvTried[nKBucket]|
        invariant |vvTried| == |old(vvTried)| && |vvTried[nKBucket]| == |bucket|
        invariant TriedBuckets(h, mapInfo, vvTried)
        invariant vvTried == old(vvTried)[nKBucket := vvTried[nKBucket]]
        invariant i == |picks| <= TRIED_ENTRIES_INSPECT_ON_EVICT && i <= |bucket|
        invariant PickedSoFar(picks, rand, |bucket|)
        invariant DrawnSoFar(mapInfo, bucket, vvTried[nKBucket], picks, nOldest, nOldestPos)
      {
        var nPos := GetRandInt(|vvTried[nKBucket]| - i, rand(i)) + i;
        var vTried := vvTried[nKBucket];
        var nTemp := vTried[nPos];
        PickNext(picks, rand, |bucket|, nPos);
        ExchangeKeeps(h, mapInfo, vvTried, nKBucket, i, nPos);
        DrawStep(mapInfo, bucket, vTried, picks, nOldest, nOldestPos, nPos);
        vTried := vTried[nPos := vTried[i]];
        vTried := vTried[i := nTemp];
        vvTried := vvTried[nKBucket := vTried];
        if nOldest == -1 || mapInfo[nTemp].nLastSuccess < mapInfo[nOldest].nLastSuccess {
          nOldest := nTemp;
          nOldestPos := nPos;
        }
        picks := picks + [nPos];
        i := i + 1;
      }
      AllPicked(picks, rand, |bucket|);
      DrawsEnd(mapInfo, bucket, vvTried[nKBucket], picks, nOldest, nOldestPos);
    }

    /** The deletion inside ShrinkNew, once an entry's reference count has reached zero. */
    method Unlink(nId: int, nUBucket: nat)
      requires nId in mapInfo && nUBucket < |vvNew| && RandomIndex(mapInfo, vRandom)
      modifies this
      ensures State() == Unlinked(old(State()), nId, nUBucket)
    {
      hide Swapped;
      CountedDown(State(), nId);
      mapInfo := mapInfo[nId := mapInfo[nId].(nRefCount := mapInfo[nId].nRefCount - 1)];
      if mapInfo[nId].nRefCount == 0 {
        SwapRandom(mapInfo[nId].nRandomPos, |vRandom| - 1);
        vRandom := vRandom[..|vRandom| - 1];
        mapAddr := mapAddr - {mapInfo[nId].service.ip};
        mapInfo := mapInfo - {nId};
        nNew := nNew - 1;
      }
      vvNew := vvNew[nUBucket := vvNew[nUBucket] - {nId}];
    }

    /** Removes an entry from a new bucket: the first terrible one, or else the oldest of four
        randomly picked ones. */
    method ShrinkNew(nUBucket: nat, nNow: int, rand: nat -> nat, ghost pending: int)
      returns (r: int, ghost victim: int)
      requires Indexed(h, State(), pending)
      requires nUBucket < |vvNew| && vvNew[nUBucket] != {} && pending !in vvNew[nUBucket]
      modifies this
      ensures victim in old(vvNew)[nUBucket] && old(vvNew)[nUBucket] <= old(mapInfo).Keys
      ensures IsVictim(old(mapInfo), old(vvNew)[nUBucket], nNow, rand, victim)
      ensures State() == Unlinked(old(State()), victim, nUBucket)
      ensures r == if exists id | id in old(vvNew)[nUBucket] :: old(mapInfo)[id].IsTerrible(nNow) then 0 else 1
      ensures Indexed(h, State(), pending)
      ensures TimesPlausible(old(mapInfo)) ==> TimesPlausible(mapInfo)
    {
      hide TimesPlausible, AddrIndex, IdsBelow, Counts, RefCounts, NewBuckets, TriedBuckets, AddrInfo.IsTerrible;
      hide Unlinked;
      BucketKnown(h, State(), pending, nUBucket);
      var vNew := vvNew[nUBucket];
      var remaining := vNew;
      while remaining != {}
        invariant remaining <= vNew && unchanged(this)
        invariant forall id | id in vNew && id !in remaining :: !mapInfo[id].IsTerrible(nNow)
        invariant forall id, y | id in vNew && id !in remaining && y in remaining :: id < y
        decreases |remaining|
      {
        LeastExists(remaining);
        var it :| it in remaining && forall y | y in remaining :: it <= y;
        if mapInfo[it].IsTerrible(nNow) {
          UnlinkKeeps(h, State(), pending, it, nUBucket);
          victim := it;
          Unlink(it, nUBucket);
          return 0, victim;
        }
        remaining := remaining - {it};
      }
      var n0 := GetRandInt(|vNew|, rand(0));
      var n1 := GetRandInt(|vNew|, rand(1));
      var n2 := GetRandInt(|vNew|, rand(2));
      var n3 := GetRandInt(|vNew|, rand(3));
      IdsArePositive(h, State(), pending);
      var nOldest := OldestPicked(vNew, n0, n1, n2, n3);
      UnlinkKeeps(h, State(), pending, nOldest, nUBucket);
      victim := nOldest;
      Unlink(nOldest, nUBucket);
      r := 1;
    }

    /** The oldest of the elements at the given places in ascending order, the first such. */
    method OldestPicked(vNew: set<int>, n0: int, n1: int, n2: int, n3: int) returns (nOldest: int)
      requires vNew <= mapInfo.Keys && NONE !in mapInfo
      requires 0 <= n0 < |vNew|
      ensures IsOldestAt(mapInfo, vNew, {n0, n1, n2, n3}, nOldest)
    {
      hide Rank, IsOldestOf;
      ghost var places: set<int> := {n0, n1, n2, n3};
      var nI := 0;
      nOldest := -1;
      var remaining := vNew;
      while remaining != {}
        invariant remaining <= vNew && nI == |vNew| - |remaining|
        invariant forall id, y | id in vNew && id !in remaining && y in remaining :: id < y
        invariant nOldest == -1 ==> nI <= n0
        invariant nOldest == -1 ==> forall id | id in vNew && id !in remaining :: Rank(vNew, id) !in places
        invariant nOldest != -1 ==> nOldest in mapInfo && IsOldestOf(mapInfo, vNew, vNew - remaining, places, nOldest)
        decreases |remaining|
      {
        LeastExists(remaining);
        var it :| it in remaining && forall y | y in remaining :: it <= y;
        NextRank(vNew, remaining, it);
        OneMoreLooked(mapInfo, vNew, remaining, places, nOldest, it);
        if nI == n0 || nI == n1 || nI == n2 || nI == n3 {
          if nOldest == -1 || mapInfo[it].nTime < mapInfo[nOldest].nTime {
            nOldest := it;
          }
        }
        nI := nI + 1;
        FewerElements(remaining, it);
        remaining := remaining - {it};
      }
      assert vNew - remaining == vNew;
    }

    /** The loop of MakeTried over all new buckets. */
    method EraseEverywhere(nId: int)
      requires nId in mapInfo && nId != NONE && RefCounts(mapInfo, vvNew, NONE)
      modifies this`mapInfo, this`vvNew
      ensures mapInfo == old(mapInfo)[nId := old(mapInfo)[nId].(nRefCount := 0)]
      ensures vvNew == Without(old(vvNew), nId, |old(vvNew)|)
    {
      hide Holders;
      var n := |vvNew|;
      assert vvNew == Without(vvNew, nId, 0);
      for b := 0 to n
        invariant |vvNew| == n && vvNew == Without(old(vvNew), nId, b)
        invariant mapInfo == old(mapInfo)[nId := old(mapInfo)[nId].(nRefCount := |Holders(vvNew, nId)|)]
      {
        WithoutStep(old(vvNew), nId, b);
        if nId in vvNew[b] {
          EraseHolds(vvNew, b, nId, nId);
          vvNew := vvNew[b := vvNew[b] - {nId}];
          mapInfo := mapInfo[nId := mapInfo[nId].(nRefCount := mapInfo[nId].nRefCount - 1)];
        }
      }
      WithoutHolds(old(vvNew), nId, nId);
    }

    /** Moves an entry to the tried table, where a full bucket gives up an entry of its own. */
    method MakeTried(nId: int, nOrigin: nat, rand: nat -> nat) returns (ghost victim: int)
      requires Valid() && nId in mapInfo
      requires nOrigin < |vvNew| && nId in vvNew[nOrigin]
      modifies this
      ensures Valid()
      ensures MadeTried(h, old(State()), State(), nId, nOrigin, rand, victim)
    {
      hide Indexed, TriedMove, TriedBuckets, RefCounts, Placed, Without, VictimHasBucket, Hashes.TriedBucket;
      hide IsDrawn;
      ghost var s := State();
      NotYetTried(h, s, nId, nOrigin);
      EraseEverywhere(nId);
      nNew := nNew - 1;
      var nKBucket := h.TriedBucket(mapInfo[nId]);
      SameBucket(h, s.mapInfo[nId], mapInfo[nId]);
      if |vvTried[nKBucket]| < TRIED_BUCKET_SIZE {
        PlaceKeeps(h, s, nId);
        PlaceMoves(h, s, nId);
        vvTried := vvTried[nKBucket := vvTried[nKBucket] + [nId]];
        nTried := nTried + 1;
        mapInfo := mapInfo[nId := mapInfo[nId].(fInTried := true)];
        PlacedIs(h, s, State(), nId);
        return NONE;
      }
      victim := Evict(nId, nKBucket, nOrigin, rand, s);
    }

    /** The rest of MakeTried: an entry of the full bucket makes room, and goes to a new bucket. */
    method Evict(nId: int, nKBucket: nat, nOrigin: nat, rand: nat -> nat, ghost s: Tables) returns (ghost victim: int)
      requires Indexed(h, s, NONE) && nId in s.mapInfo && nOrigin < |s.vvNew| && nId in s.vvNew[nOrigin]
      requires |s.vvTried| == TRIED_BUCKET_COUNT && nKBucket == h.TriedBucket(s.mapInfo[nId])
      requires |s.vvTried[nKBucket]| >= TRIED_BUCKET_SIZE
      requires State() == s.(mapInfo := s.mapInfo[nId := s.mapInfo[nId].(nRefCount := 0)],
                             vvNew := Without(s.vvNew, nId, |s.vvNew|), nNew := s.nNew - 1)
      modifies this
      ensures Valid()
      ensures TriedMove(h, s, State(), nId, victim) && VictimHasBucket(h, s, State(), nId, victim, nOrigin)
      ensures IsDrawn(h, s, State(), nId, rand, victim) && victim != NONE
    {
      hide DrawnFrom, IsDrawn, Picks, Indexed, TriedMove, TriedBuckets, RefCounts, Placed, Replaced, Without;
      hide Hashes.TriedBucket, Hashes.NewBucket;
      NotYetTried(h, s, nId, nOrigin);
      UncountedKeepsTried(h, s.mapInfo, vvTried, nId);
      var nPos := SelectTried(nKBucket, rand);
      UncountedKeepsTried(h, s.mapInfo, vvTried, nId);
      DrawnUncounted(s.mapInfo, nId, s.vvTried[nKBucket], vvTried[nKBucket], nPos, Picks(rand, |s.vvTried[nKBucket]|));
      ghost var t := s.(vvTried := vvTried);
      ReorderedKeeps(h, s, t.vvTried);
      victim := vvTried[nKBucket][nPos];
      VictimFits(h, t, nId, nPos, nOrigin);
      var old_ := mapInfo[vvTried[nKBucket][nPos]];
      var nUBucket := h.NewBucket(old_, old_.source);
      mapInfo := mapInfo[vvTried[nKBucket][nPos] := old_.(fInTried := false, nRefCount := 1)];
      var dest := nUBucket;
      if |vvNew[nUBucket]| >= NEW_BUCKET_SIZE {
        dest := nOrigin;
      }
      vvNew := vvNew[dest := vvNew[dest] + {vvTried[nKBucket][nPos]}];
      nNew := nNew + 1;
      vvTried := vvTried[nKBucket := vvTried[nKBucket][nPos := nId]];
      mapInfo := mapInfo[nId := mapInfo[nId].(fInTried := true)];
      ReplaceKeeps(h, t, nId, nPos, dest);
      ReplacedIs(h, t, State(), nId, nPos, dest);
      ReplaceMoves(h, t, nId, nPos, dest);
      SameMove(h, s, t, State(), nId, victim);
      IsDrawnHere(h, s, State(), nId, rand, t.vvTried[nKBucket], nPos);
    }

    /** A new bucket that holds the entry, searched from a random one onwards. There always is one. */
    method FindBucket(nId: int, rand: nat) returns (nUBucket: int)
      requires Valid() && nId in mapInfo && !mapInfo[nId].fInTried
      ensures 0 <= nUBucket < |vvNew| && nId in vvNew[nUBucket]
      ensures IsFirstHolder(vvNew, nId, GetRandInt(|vvNew|, rand), nUBucket)
    {
      hide Indexed, Holders;
      HeldByABucket(h, State(), nId);
      var nRnd := GetRandInt(|vvNew|, rand);
      nUBucket := -1;
      for n := 0 to |vvNew|
        invariant forall m: nat | m < n :: nId !in vvNew[Rotated(|vvNew|, nRnd, m)]
      {
        var nB := (n + nRnd) % |vvNew|;
        assert nB == Rotated(|vvNew|, nRnd, n);
        if nId in vvNew[nB] {
          return nB;
        }
      }
      ghost var b: nat :| b < |vvNew| && nId in vvNew[b];
      ghost var m := RotationCovers(|vvNew|, nRnd, b);
      assert false;
    }

    /** Records a success, and moves the entry to the tried table. */
    method Good_(addr: Service, nTime: int, rand: nat -> nat) returns (ghost victim: int, ghost origin: int)
      requires Valid()
      modifies this
      ensures Valid()
      ensures TimesPlausible(old(mapInfo)) ==>
        (TimesPlausible(mapInfo) <==> nTime > 0 || !IsKnown(old(State()), addr))
      ensures IsKnown(old(State()), addr) ==>
        TriedOutcome(h, old(State()), State(), old(mapAddr)[addr.ip],
                     Succeeded(old(mapInfo)[old(mapAddr)[addr.ip]], nTime), victim)
      ensures !IsKnown(old(State()), addr) ==> State() == old(State())
      ensures IsKnown(old(State()), addr) ==>
        HasSucceeded(h, old(State()), State(), old(mapAddr)[addr.ip],
                     Succeeded(old(mapInfo)[old(mapAddr)[addr.ip]], nTime), rand, origin, victim)
    {
      hide Indexed, TimesPlausible, TriedMove, TriedOutcome, VictimHasBucket, IsFirstHolder, IsDrawn, Placed;
      var nId := Find(addr.ip);
      IndexHasEntry(h, State(), addr.ip);
      if nId == NONE {
        return NONE, NONE;
      }
      if mapInfo[nId].service != addr {
        return NONE, NONE;
      }
      ghost var s := State();
      IdsArePositive(h, s, NONE);
      var info := mapInfo[nId].(nLastSuccess := nTime, nLastTry := nTime, nTime := nTime, nAttempts := 0);
      UpdateKeeps(h, s, NONE, nId, info);
      mapInfo := mapInfo[nId := info];
      if info.fInTried {
        AlreadyTried(h, s, State(), nId, info);
        OutcomeTimes(h, s, State(), nId, info, NONE);
        return NONE, NONE;
      }
      var nUBucket := FindBucket(nId, rand(0));
      ghost var t := State();
      origin := nUBucket;
      victim := MakeTried(nId, nUBucket, Later(rand));
      MovedAfterUpdate(h, s, t, State(), nId, info, victim);
      OutcomeTimes(h, s, State(), nId, info, victim);
    }

    method Attempt_(addr: Service, nTime: int)
      requires Valid()
      modifies this`mapInfo
      ensures Valid()
      ensures TimesPlausible(old(mapInfo)) ==>
        (TimesPlausible(mapInfo) <==> nTime >= 0 || !IsKnown(old(State()), addr))
      ensures mapInfo == if IsKnown(old(State()), addr) then
                var id := old(mapAddr)[addr.ip];
                var e := old(mapInfo)[id];
                old(mapInfo)[id := e.(nLastTry := nTime, nAttempts := e.nAttempts + 1)]
              else old(mapInfo)
    {
      hide Indexed;
      var nId := Find(addr.ip);
      IndexHasEntry(h, State(), addr.ip);
      if nId == NONE {
        return;
      }
      if mapInfo[nId].service != addr {
        return;
      }
      var info := mapInfo[nId];
      UpdateKeeps(h, State(), NONE, nId, info.(nLastTry := nTime, nAttempts := info.nAttempts + 1));
      mapInfo := mapInfo[nId := info.(nLastTry := nTime, nAttempts := info.nAttempts + 1)];
    }

    method Connected_(addr: Service, nTime: int)
      requires Valid()
      modifies this`mapInfo
      ensures Valid() && (TimesPlausible(old(mapInfo)) ==> TimesPlausible(mapInfo))
      ensures mapInfo == if IsKnown(old(State()), addr) &&
                            nTime - old(mapInfo)[old(mapAddr)[addr.ip]].nTime > 20 * 60 then
                var id := old(mapAddr)[addr.ip];
                old(mapInfo)[id := old(mapInfo)[id].(nTime := nTime)]
              else old(mapInfo)
    {
      hide Indexed;
      var nId := Find(addr.ip);
      IndexHasEntry(h, State(), addr.ip);
      if nId == NONE {
        return;
      }
      if mapInfo[nId].service != addr {
        return;
      }
      var info := mapInfo[nId];
      var nUpdateInterval := 20 * 60;
      if nTime - info.nTime > nUpdateInterval {
        UpdateKeeps(h, State(), NONE, nId, info.(nTime := nTime));
        mapInfo := mapInfo[nId := info.(nTime := nTime)];
      }
    }

    /** Appends about a quarter of the known addresses, chosen at random, no address twice. */
    method GetAddr_(vAddrIn: seq<Address>, rand: nat -> nat) returns (vAddr: seq<Address>)
      requires Valid()
      modifies this`mapInfo, this`vRandom
      ensures Valid() && SameFacts(old(mapInfo), mapInfo)
      ensures TimesPlausible(old(mapInfo)) ==> TimesPlausible(mapInfo)
      ensures |vAddr| == |vAddrIn| + AddrCount(|old(vRandom)|) && vAddrIn <= vAddr
      ensures |vAddr| == |vAddrIn| + MinNat(2500, 23 * |old(vRandom)| / 100)
      ensures AreKnownAddresses(old(mapInfo), vAddr[|vAddrIn|..])
      ensures var n := |vAddr| - |vAddrIn|;
        vRandom == Shuffled(old(vRandom), rand, n) && AddressesOf(old(mapInfo), vRandom[..n], vAddr[|vAddrIn|..])
    {
      hide Indexed, TimesPlausible, SameFacts, AddrCount, MinNat, AreKnownAddresses, AddressesOf, Swapped, Shuffled;
      hide Handing, GetRandInt;
      vAddr := vAddrIn;
      var nNodes := GETADDR_MAX_PCT * |vRandom| / 100;
      if nNodes > GETADDR_MAX {
        nNodes := GETADDR_MAX;
      }
      AddrCountIs(|vRandom|, nNodes);
      HandingStarts(h, State(), rand);
      assert vAddr[|vAddrIn|..] == [];
      for n := 0 to nNodes
        invariant |vAddr| == |vAddrIn| + n && vAddr[..|vAddrIn|] == vAddrIn
        invariant Handing(h, old(State()), State(), rand, n, vAddr[|vAddrIn|..])
      {
        ghost var addrs := vAddr[|vAddrIn|..];
        HandingAt(h, old(State()), State(), rand, n, addrs);
        var nRndPos := GetRandInt(|vRandom| - n, rand(n)) + n;
        HandingNext(h, old(State()), State(), rand, n, nRndPos, addrs);
        SwapRandom(n, nRndPos);
        var info := mapInfo[vRandom[n]];
        vAddr := vAddr + [Address(info.service, info.nServices, info.nTime)];
        assert vAddr[|vAddrIn|..] == addrs + [Address(info.service, info.nServices, info.nTime)];
      }
      HandingEnds(h, old(State()), State(), rand, nNodes, vAddr[|vAddrIn|..]);
      if TimesPlausible(old(mapInfo)) {
        FactsKeepTimes(old(mapInfo), mapInfo);
      }
    }

    /** The tail of Add_, once the entry's reference count is one ahead. */
    method LinkInto(nId: int, nUBucket: nat, nNow: int, rand: nat -> nat) returns (ghost victim: int)
      requires Indexed(h, State(), nId) && nId in mapInfo
      requires nUBucket < |vvNew| && nId !in vvNew[nUBucket]
      modifies this
      ensures Valid()
      ensures nId in mapInfo && Alike(mapInfo[nId], old(mapInfo)[nId])
      ensures OnlyUnlinks(old(mapInfo), mapInfo, victim) && victim != nId
      ensures |vvNew| == |old(vvNew)| && nId in vvNew[nUBucket]
      ensures forall b | 0 <= b < |vvNew| && b != nUBucket :: vvNew[b] == old(vvNew)[b]
      ensures vvNew[nUBucket] == old(vvNew)[nUBucket] - {victim} + {nId}
      ensures victim != NONE <==> |old(vvNew)[nUBucket]| == NEW_BUCKET_SIZE
      ensures victim != NONE ==> victim in old(vvNew)[nUBucket]
      ensures victim != NONE ==> IsVictim(old(mapInfo), old(vvNew)[nUBucket], nNow, rand, victim)
      ensures vvTried == old(vvTried) && nIdCount == old(nIdCount)
    {
      hide Indexed, OnlyUnlinks, Unlinked, AddrInfo.IsTerrible, IsVictim;
      BucketKnown(h, State(), nId, nUBucket);
      IdsArePositive(h, State(), nId);
      NothingUnlinked(mapInfo);
      victim := NONE;
      if |vvNew[nUBucket]| == NEW_BUCKET_SIZE {
        ghost var s := State();
        var _, v := ShrinkNew(nUBucket, nNow, rand, nId);
        victim := v;
        UnlinkKeeps(h, s, nId, victim, nUBucket);
        OthersStay(s.mapInfo, mapInfo, victim, nId);
        FewerElements(s.vvNew[nUBucket], victim);
      }
      LinkKeeps(h, State(), nId, nUBucket);
      vvNew := vvNew[nUBucket := vvNew[nUBucket] + {nId}];
    }

    /** The branch of Add_ for an address that is already known; the result says whether to go on
        and link the entry into one more bucket. */
    method Refresh(nId: int, addr: Address, nTimePenalty: int, nNow: int, rand: nat) returns (goOn: bool)
      requires Valid() && nId in mapInfo
      modifies this`mapInfo
      ensures Valid()
      ensures mapInfo == old(mapInfo)[nId := Heard(old(mapInfo)[nId], addr, nTimePenalty, nNow)]
      ensures goOn <==> MayLink(mapInfo[nId], addr) && Lucky(mapInfo[nId].nRefCount, rand)
    {
      hide Indexed, RefCounts;
      CountAtMost(h, State(), nId);
      UpdateKeeps(h, State(), NONE, nId, Heard(mapInfo[nId], addr, nTimePenalty, nNow));
      var info := mapInfo[nId];
      var fCurrentlyOnline := nNow - addr.nTime < 24 * 60 * 60;
      var nUpdateInterval := if fCurrentlyOnline then 60 * 60 else 24 * 60 * 60;
      if addr.nTime != 0 && (info.nTime == 0 || info.nTime < addr.nTime - nUpdateInterval - nTimePenalty) {
        info := info.(nTime := Max0(addr.nTime - nTimePenalty));
      }
      info := info.(nServices := info.nServices + addr.nServices);
      assert info == Heard(mapInfo[nId], addr, nTimePenalty, nNow);
      mapInfo := mapInfo[nId := info];
      if addr.nTime == 0 || (info.nTime != 0 && addr.nTime <= info.nTime) {
        return false;
      }
      if info.fInTried {
        return false;
      }
      if info.nRefCount == NEW_BUCKETS_PER_ADDRESS {
        return false;
      }
      goOn := TryHarder(info.nRefCount, rand);
    }

    /** The stochastic test: after n references one random number in 2^n lets the entry go on. */
    method TryHarder(nRefCount: nat, rand: nat) returns (goOn: bool)
      ensures goOn <==> Lucky(nRefCount, rand)
    {
      var nFactor := 1;
      for n := 0 to nRefCount
        invariant nFactor == Pow2(n)
      {
        nFactor := nFactor * 2;
      }
      LuckyIff(nRefCount, rand);
      goOn := !(nFactor > 1 && rand % nFactor != 0);
    }

    /** The branch of Add_ for an address that is already known. */
    method AddKnown(nId: int, addr: Address, source: NetAddr, nTimePenalty: int, nNow: int, rand: nat -> nat)
      returns (ghost victim: int)
      requires Valid() && addr.service.ip in mapAddr && mapAddr[addr.service.ip] == nId && nId in mapInfo && nId != NONE
      modifies this
      ensures Valid() && (TimesPlausible(old(mapInfo)) ==> TimesPlausible(mapInfo))
      ensures AddedAgain(h, old(State()), State(), addr, source, nTimePenalty, nNow, rand(0), victim)
      ensures |old(vvNew)| == NEW_BUCKET_COUNT
      ensures victim != NONE ==>
        IsVictim(old(mapInfo), old(vvNew)[h.NewBucket(NewInfo(addr, source), source)], nNow, Later(rand), victim)
    {
      hide Indexed, TimesPlausible, AddedAgain, OnlyUnlinks, Heard, Hashes.NewBucket, RefCounts, IsVictim, MayLink;
      hide Lucky, Alike, AddrInfo.IsTerrible;
      victim := NONE;
      ghost var s := State();
      IndexHasEntry(h, s, addr.service.ip);
      var goOn := Refresh(nId, addr, nTimePenalty, nNow, rand(0));
      ghost var t := State();
      BucketsExist(h, t);
      BucketOfHeard(h, s.mapInfo[nId], addr, source, nTimePenalty, nNow);
      var nUBucket := h.NewBucket(mapInfo[nId], source);
      if goOn && nId !in vvNew[nUBucket] {
        Linkable(mapInfo[nId], addr);
        IncrementPends(h, t, nId);
        mapInfo := mapInfo[nId := mapInfo[nId].(nRefCount := mapInfo[nId].nRefCount + 1)];
        ghost var u := State();
        victim := LinkInto(nId, nUBucket, nNow, Later(rand));
        VictimBefore(h, s, u, nId, nUBucket, nNow, Later(rand), victim);
        LinkedAgain(h, s, t, u, State(), addr, source, nTimePenalty, nNow, rand(0), victim);
      } else {
        OnlyHeard(h, s, t, addr, source, nTimePenalty, nNow, rand(0));
      }
      AddedAgainTimes(h, s, State(), addr, source, nTimePenalty, nNow, rand(0), victim);
    }

    /** Adds an address that was announced, or what is new about one that is known.  `rand` is the random
        number of the stochastic test, before it is brought into range. */
    method Add_(addr: Address, source: NetAddr, nTimePenalty: int, nNow: int, rand: nat -> nat)
      returns (fNew: bool, ghost victim: int)
      requires Valid()
      modifies this
      ensures Valid() && (TimesPlausible(old(mapInfo)) ==> TimesPlausible(mapInfo))
      ensures !isRoutable(addr.service.ip) ==> !fNew && State() == old(State())
      ensures fNew == (isRoutable(addr.service.ip) && addr.service.ip !in old(mapAddr))
      ensures fNew ==> AddedNew(h, old(State()), State(), addr, source, nTimePenalty, victim)
      ensures !fNew && isRoutable(addr.service.ip) ==>
        AddedAgain(h, old(State()), State(), addr, source, nTimePenalty, nNow, rand(0), victim)
      ensures |old(vvNew)| == NEW_BUCKET_COUNT
      ensures victim != NONE ==>
        IsVictim(old(mapInfo), old(vvNew)[h.NewBucket(NewInfo(addr, source), source)], nNow, Later(rand), victim)
    {
      hide Indexed, TimesPlausible, AddedNew, AddedAgain, OnlyUnlinks, Heard, Hashes.NewBucket, RefCounts, IsVictim;
      ghost var s := State();
      BucketsExist(h, s);
      victim := NONE;
      if !isRoutable(addr.service.ip) {
        return false, NONE;
      }
      var nId := Find(addr.service.ip);
      IndexHasEntry(h, s, addr.service.ip);
      IdsArePositive(h, s, NONE);
      if nId != NONE {
        victim := AddKnown(nId, addr, source, nTimePenalty, nNow, rand);
        return false, victim;
      }
      nId := Create(addr, source);
      mapInfo := mapInfo[nId := mapInfo[nId].(nTime := Max0(mapInfo[nId].nTime - nTimePenalty))];
      nNew := nNew + 1;
      fNew := true;
      var nUBucket := h.NewBucket(mapInfo[nId], source);
      BucketOfService(h, mapInfo[nId], NewInfo(addr, source), source);
      mapInfo := mapInfo[nId := mapInfo[nId].(nRefCount := mapInfo[nId].nRefCount + 1)];
      CreatePends(h, s, State(), addr, source, nTimePenalty);
      ghost var u := State();
      victim := LinkInto(nId, nUBucket, nNow, Later(rand));
      VictimBefore(h, s, u, nId, nUBucket, nNow, Later(rand), victim);
      LinkedNew(h, s, u, State(), addr, source, nTimePenalty, victim);
      AddedNewTimes(h, s, State(), addr, source, nTimePenalty, victim);
    }

    // ---------------------------------------------------------------- saving and loading

    /** Numbers the entries of the new table in ascending order of id, and writes them. */
    method SaveNew() returns (newInfos: seq<Record>, mapUnkIds: map<int, int>, ghost newIds: seq<int>)
      requires Valid()
      ensures Lists(newIds, NewIds(mapInfo)) && Records(mapInfo, newIds, newInfos)
      ensures Numbered(mapUnkIds, newIds, NewIds(mapInfo))
    {
      hide Indexed;
      NewIsCounted(h, State());
      newInfos, mapUnkIds, newIds := [], map[], [];
      var nIds := 0;
      var remaining := mapInfo.Keys;
      while remaining != {}
        invariant remaining <= mapInfo.Keys && nIds == |newIds|
        invariant Records(mapInfo, newIds, newInfos) && Distinct(newIds)
        invariant forall x :: x in newIds <==> x in NewIds(mapInfo) && x !in remaining
        invariant Numbered(mapUnkIds, newIds, NewIds(mapInfo) - remaining)
        decreases |remaining|
      {
        if nIds == nNew {
          break;
        }
        LeastExists(remaining);
        var it :| it in remaining && forall y | y in remaining :: it <= y;
        mapUnkIds := mapUnkIds[it := nIds];
        if mapInfo[it].nRefCount != 0 {
          newInfos := newInfos + [Persist(mapInfo[it])];
          newIds := newIds + [it];
          nIds := nIds + 1;
        }
        remaining := remaining - {it};
      }
      AllCounted(newIds, NewIds(mapInfo), remaining, nNew);
    }

    method SaveTried() returns (triedInfos: seq<Record>, ghost triedIds: seq<int>)
      requires Valid()
      ensures Lists(triedIds, TriedIds(mapInfo)) && Records(mapInfo, triedIds, triedInfos)
    {
      hide Indexed;
      NewIsCounted(h, State());
      triedInfos, triedIds := [], [];
      var nIds := 0;
      var remaining := mapInfo.Keys;
      while remaining != {}
        invariant remaining <= mapInfo.Keys && nIds == |triedIds|
        invariant Records(mapInfo, triedIds, triedInfos) && Distinct(triedIds)
        invariant forall x :: x in triedIds <==> x in TriedIds(mapInfo) && x !in remaining
        decreases |remaining|
      {
        if nIds == nTried {
          break;
        }
        LeastExists(remaining);
        var it :| it in remaining && forall y | y in remaining :: it <= y;
        if mapInfo[it].fInTried {
          triedInfos := triedInfos + [Persist(mapInfo[it])];
          triedIds := triedIds + [it];
          nIds := nIds + 1;
        }
        remaining := remaining - {it};
      }
      AllCounted(triedIds, TriedIds(mapInfo), remaining, nTried);
    }

    method SaveBucket(vNew: set<int>, mapUnkIds: map<int, int>, ghost newIds: seq<int>) returns (bucket: seq<int>)
      requires Numbered(mapUnkIds, newIds, vNew)
      ensures Indexes(bucket, newIds, vNew)
    {
      bucket := [];
      var remaining := vNew;
      while remaining != {}
        invariant remaining <= vNew && Indexes(bucket, newIds, vNew - remaining)
        decreases |remaining|
      {
        LeastExists(remaining);
        var it :| it in remaining && forall y | y in remaining :: it <= y;
        var nIndex := mapUnkIds[it];
        IndexAdded(bucket, newIds, vNew - remaining, nIndex, it);
        bucket := bucket + [nIndex];
        assert vNew - remaining + {it} == vNew - (remaining - {it});
        remaining := remaining - {it};
      }
      assert vNew - remaining == vNew;
    }

    method Save() returns (file: File, ghost newIds: seq<int>, ghost triedIds: seq<int>)
      requires Valid()
      ensures SavedAs(State(), file, newIds, triedIds) && IsSaveOf(State(), file)
    {
      hide Indexed, Lists, Records, Numbered, Indexes, NewIds, TriedIds;
      var newInfos, mapUnkIds, triedInfos;
      newInfos, mapUnkIds, newIds := SaveNew();
      triedInfos, triedIds := SaveTried();
      var buckets := [];
      for b := 0 to |vvNew|
        invariant |buckets| == b
        invariant forall c | 0 <= c < b :: Indexes(buckets[c], newIds, vvNew[c])
      {
        BucketIsNew(h, State(), b);
        NumberedSubset(mapUnkIds, newIds, NewIds(mapInfo), vvNew[b]);
        var bucket := SaveBucket(vvNew[b], mapUnkIds, newIds);
        buckets := buckets + [bucket];
      }
      file := File(newInfos, triedInfos, buckets);
    }

    /** Replaces everything by what the file says. A file with more buckets than there are cannot be
        loaded. */
    method LoadFile(file: File)
      requires |file.buckets| <= NEW_BUCKET_COUNT
      modifies this
      ensures State() == Load(h, file)
    {
      hide LoadNew, LoadTried, LoadBuckets;
      nNew, nTried := |file.newInfos|, |file.triedInfos|;
      nIdCount, mapInfo, mapAddr, vRandom := 0, map[], map[], [];
      vvTried := seq(TRIED_BUCKET_COUNT, _ => []);
      vvNew := seq(NEW_BUCKET_COUNT, _ => {});
      LoadStarts(h, file);
      for n := 0 to nNew
        invariant nNew == |file.newInfos| && State() == LoadNew(h, file, n)
      {
        ReadNew(file, n);
      }
      nIdCount := nNew;
      ReadTried(file);
      for b := 0 to |file.buckets|
        invariant State() == LoadBuckets(file, LoadTried(h, file, |file.triedInfos|), b)
      {
        BucketLoads(file, LoadTried(h, file, |file.triedInfos|), b);
        ReadBucket(file, b);
      }
    }

    method ReadNew(file: File, n: nat)
      requires n < |file.newInfos| && State() == LoadNew(h, file, n)
      modifies this
      ensures State() == LoadNew(h, file, n + 1)
    {
      hide Inserted, FromRecord, Hashes.NewBucket;
      var info := FromRecord(file.newInfos[n]);
      mapInfo := mapInfo[n := info];
      mapAddr := mapAddr[info.service.ip := n];
      info := info.(nRandomPos := |vRandom|);
      mapInfo := mapInfo[n := info];
      vRandom := vRandom + [n];
      assert mapInfo == LoadNew(h, file, n).mapInfo[n := info];
      RecordCountsNone(file.newInfos[n]);
      if |file.buckets| != NEW_BUCKET_COUNT {
        var b := h.NewBucket(info, info.source);
        vvNew := vvNew[b := vvNew[b] + {n}];
        InsertedIs(LoadNew(h, file, n).vvNew, b, n);
        mapInfo := mapInfo[n := info.(nRefCount := info.nRefCount + 1)];
      }
    }

    method ReadTried(file: File)
      requires State() == LoadTried(h, file, 0) && nTried == |file.triedInfos|
      modifies this
      ensures State() == LoadTried(h, file, |file.triedInfos|)
    {
      hide FromRecord, Hashes.TriedBucket, LoadNew;
      var nLost := 0;
      for n := 0 to nTried
        invariant nTried == |file.triedInfos|
        invariant State().(nTried := nTried - nLost) == LoadTried(h, file, n)
        invariant |vvTried| == TRIED_BUCKET_COUNT
      {
        var info := FromRecord(file.triedInfos[n]);
        var k := h.TriedBucket(info);
        if |vvTried[k]| < TRIED_BUCKET_SIZE {
          info := info.(nRandomPos := |vRandom|);
          info := info.(fInTried := true);
          vRandom := vRandom + [nIdCount];
          mapInfo := mapInfo[nIdCount := info];
          mapAddr := mapAddr[info.service.ip := nIdCount];
          vvTried := vvTried[k := vvTried[k] + [nIdCount]];
          nIdCount := nIdCount + 1;
        } else {
          nLost := nLost + 1;
        }
      }
      nTried := nTried - nLost;
    }

    method ReadBucket(file: File, b: nat)
      requires b < |file.buckets| && b < |vvNew|
      modifies this
      ensures State() == LoadBucket(file, old(State()), b, |file.buckets[b]|)
    {
      for n := 0 to |file.buckets[b]|
        invariant |vvNew| == |old(vvNew)|
        invariant State() == LoadBucket(file, old(State()), b, n)
      {
        var nIndex := file.buckets[b][n];
        if nIndex !in mapInfo {
          mapInfo := mapInfo[nIndex := DEFAULT_INFO];
        }
        var info := mapInfo[nIndex];
        assert mapInfo == mapInfo[nIndex := info];
        if |file.buckets| == NEW_BUCKET_COUNT && info.nRefCount < NEW_BUCKETS_PER_ADDRESS {
          mapInfo := mapInfo[nIndex := info.(nRefCount := info.nRefCount + 1)];
          vvNew := vvNew[b := vvNew[b] + {nIndex}];
        }
      }
    }
  }

  /** The outcome of moving an entry to the tried table: the entry is tried, and either nothing else
      changed or one entry of the same tried bucket went back to a new one. */
  predicate TriedMove(h: Hashes, s: Tables, t: Tables, id: int, victim: int) {
    && id in s.mapInfo && t.mapInfo.Keys == s.mapInfo.Keys
    && t.mapInfo[id] == AsTried(s.mapInfo[id])
    && (forall x | x in s.mapInfo && x != id && x != victim :: t.mapInfo[x] == s.mapInfo[x])
    && (victim != NONE ==>
          && victim in s.mapInfo && victim != id && s.mapInfo[victim].fInTried
          && h.TriedBucket(s.mapInfo[victim]) == h.TriedBucket(s.mapInfo[id])
          && t.mapInfo[victim] == AsEvicted(s.mapInfo[victim]))
    && (victim == NONE <==>
      |s.vvTried| == TRIED_BUCKET_COUNT && |s.vvTried[h.TriedBucket(s.mapInfo[id])]| < TRIED_BUCKET_SIZE)
    && t.mapAddr == s.mapAddr && t.vRandom == s.vRandom && t.nIdCount == s.nIdCount
  }

  /** The victim is the entry at the position that the draws from the full bucket return, and its place
      there is taken by the new entry. */
  predicate IsDrawn(h: Hashes, s: Tables, t: Tables, id: int, rand: nat -> nat, victim: int) {
    && id in s.mapInfo && |s.vvTried| == TRIED_BUCKET_COUNT
    && var k := h.TriedBucket(s.mapInfo[id]);
       var bucket := s.vvTried[k];
       var picks := Picks(rand, |bucket|);
       && Draws(bucket, picks) && Known(s.mapInfo, bucket)
       && var d := Drawn(s.mapInfo, bucket, picks);
          && d.pos < |d.bucket| && victim == d.bucket[d.pos]
          && t.vvTried == s.vvTried[k := d.bucket[d.pos := id]]
  }

  lemma DrawnUncounted(info: Infos, id: int, bucket: seq<int>, bucket': seq<int>, pos: int, picks: seq<nat>)
    requires id in info && Known(info, bucket)
    requires DrawnFrom(info[id := info[id].(nRefCount := 0)], bucket, bucket', pos, picks)
    ensures DrawnFrom(info, bucket, bucket', pos, picks)
  {
    hide Drawn;
    DrawnSame(info[id := info[id].(nRefCount := 0)], info, bucket, picks);
  }

  lemma IsDrawnHere(h: Hashes, s: Tables, t: Tables, id: int, rand: nat -> nat, bucket: seq<int>, pos: int)
    requires id in s.mapInfo && |s.vvTried| == TRIED_BUCKET_COUNT
    requires var k := h.TriedBucket(s.mapInfo[id]);
      && DrawnFrom(s.mapInfo, s.vvTried[k], bucket, pos, Picks(rand, |s.vvTried[k]|))
      && 0 <= pos < |bucket| && t.vvTried == s.vvTried[k := bucket[pos := id]]
    ensures IsDrawn(h, s, t, id, rand, bucket[pos])
  {
    hide Drawn, Picks, Hashes.TriedBucket;
  }

  /** What MakeTried does: there is room, or a drawn entry makes room. */
  predicate MadeTried(h: Hashes, s: Tables, t: Tables, id: int, nOrigin: nat, rand: nat -> nat, victim: int) {
    && TriedMove(h, s, t, id, victim)
    && if victim == NONE then |s.vvTried| == TRIED_BUCKET_COUNT && t == Placed(h, s, id)
       else VictimHasBucket(h, s, t, id, victim, nOrigin) && IsDrawn(h, s, t, id, rand, victim)
  }

  /** The first bucket that holds the entry, from bucket `start` onwards and around. */
  ghost predicate IsFirstHolder(vvNew: seq<set<int>>, id: int, start: int, b: int) {
    start >= 0 && exists n: nat | n < |vvNew| ::
      && b == Rotated(|vvNew|, start, n) && id in vvNew[b]
      && forall m: nat | m < n :: id !in vvNew[Rotated(|vvNew|, start, m)]
  }

  /** What Good_ does to a known entry: the statistics change, and unless it was tried already it is
      moved from the first bucket that holds it. */
  ghost predicate HasSucceeded(h: Hashes, s: Tables, t: Tables, id: int, info: AddrInfo, rand: nat -> nat, origin: int,
                               victim: int) {
    && id in s.mapInfo
    && var updated := s.(mapInfo := s.mapInfo[id := info]);
       if info.fInTried then t == updated
       else
         && origin >= 0 && IsFirstHolder(s.vvNew, id, GetRandInt(|s.vvNew|, rand(0)), origin)
         && MadeTried(h, updated, t, id, origin, Later(rand), victim)
  }

  /** The victim goes to the bucket its own source gives if there is room, else where the entry came from. */
  predicate VictimHasBucket(h: Hashes, s: Tables, t: Tables, id: int, victim: int, nOrigin: nat) {
    && victim in s.mapInfo && |s.vvNew| == |t.vvNew| == NEW_BUCKET_COUNT && nOrigin < |s.vvNew|
    && var b := h.NewBucket(s.mapInfo[victim], s.mapInfo[victim].source);
       var dest := if |s.vvNew[b] - {id}| < NEW_BUCKET_SIZE then b else nOrigin;
       t.vvNew == Inserted(Without(s.vvNew, id, |s.vvNew|), dest, victim)
  }

  // ---------------------------------------------------------------- steps of MakeTried

  lemma NotYetTried(h: Hashes, s: Tables, id: int, b: nat)
    requires Indexed(h, s, NONE) && id in s.mapInfo && b < |s.vvNew| && id in s.vvNew[b]
    ensures id != NONE && !s.mapInfo[id].fInTried && RefCounts(s.mapInfo, s.vvNew, NONE)
    ensures TriedBuckets(h, s.mapInfo, s.vvTried)
    ensures |s.vvTried| == TRIED_BUCKET_COUNT && |s.vvNew| == NEW_BUCKET_COUNT && NONE !in s.mapInfo
  {
    PositiveCount(s.mapInfo, s.vvNew, NONE, id, b);
  }

  lemma WithoutStep(vvNew: seq<set<int>>, id: int, b: nat)
    requires b < |vvNew|
    ensures var now := Without(vvNew, id, b);
      Without(vvNew, id, b + 1) == if id in now[b] then Erased(now, b, id) else now
  {
    if id !in vvNew[b] {
      assert vvNew[b] - {id} == vvNew[b];
    }
  }

  lemma SameBucket(h: Hashes, e: AddrInfo, f: AddrInfo)
    requires e.service == f.service
    ensures h.TriedBucket(e) == h.TriedBucket(f)
  {
  }

  lemma PlaceMoves(h: Hashes, s: Tables, id: int)
    requires id in s.mapInfo && |s.vvTried| == TRIED_BUCKET_COUNT
    requires |s.vvTried[h.TriedBucket(s.mapInfo[id])]| < TRIED_BUCKET_SIZE
    ensures TriedMove(h, s, Placed(h, s, id), id, NONE)
  {
    assert Placed(h, s, id).mapInfo.Keys == s.mapInfo.Keys;
  }

  lemma PlacedIs(h: Hashes, s: Tables, t: Tables, id: int)
    requires id in s.mapInfo && |s.vvTried| == TRIED_BUCKET_COUNT
    requires var k := h.TriedBucket(s.mapInfo[id]);
      var counted := s.mapInfo[id := s.mapInfo[id].(nRefCount := 0)];
      t == s.(mapInfo := counted[id := counted[id].(fInTried := true)],
              vvNew := Without(s.vvNew, id, |s.vvNew|), nNew := s.nNew - 1,
              vvTried := s.vvTried[k := s.vvTried[k] + [id]], nTried := s.nTried + 1)
    ensures t == Placed(h, s, id)
  {
    var counted := s.mapInfo[id := s.mapInfo[id].(nRefCount := 0)];
    assert counted[id := counted[id].(fInTried := true)] == s.mapInfo[id := AsTried(s.mapInfo[id])];
  }

  /** The tried table does not look at reference counts. */
  lemma UncountedKeepsTried(h: Hashes, info: Infos, vvTried: seq<seq<int>>, id: int)
    requires id in info
    ensures TriedBuckets(h, info, vvTried) <==> TriedBuckets(h, info[id := info[id].(nRefCount := 0)], vvTried)
  {
    var info' := info[id := info[id].(nRefCount := 0)];
    forall x | x in info
      ensures h.TriedBucket(info'[x]) == h.TriedBucket(info[x])
    {
      SameBucket(h, info[x], info'[x]);
    }
  }

  lemma ReorderedKeeps(h: Hashes, s: Tables, vvTried: seq<seq<int>>)
    requires Indexed(h, s, NONE) && TriedBuckets(h, s.mapInfo, vvTried)
    ensures Indexed(h, s.(vvTried := vvTried), NONE)
  {
  }

  lemma VictimFits(h: Hashes, t: Tables, id: int, nPos: nat, nOrigin: nat)
    requires Indexed(h, t, NONE) && id in t.mapInfo && nOrigin < |t.vvNew| && id in t.vvNew[nOrigin]
    requires nPos < |t.vvTried[h.TriedBucket(t.mapInfo[id])]|
    ensures var victim := t.vvTried[h.TriedBucket(t.mapInfo[id])][nPos];
      && victim in t.mapInfo && t.mapInfo[victim].fInTried && victim != id && victim != NONE
      && h.TriedBucket(t.mapInfo[victim]) == h.TriedBucket(t.mapInfo[id])
    ensures |t.vvNew[nOrigin] - {id}| < NEW_BUCKET_SIZE
    ensures forall b | 0 <= b < |t.vvNew| :: Without(t.vvNew, id, |t.vvNew|)[b] == t.vvNew[b] - {id}
  {
    NotYetTried(h, t, id, nOrigin);
    FewerElements(t.vvNew[nOrigin], id);
  }

  lemma ReplacedIs(h: Hashes, s: Tables, t: Tables, id: int, nPos: nat, dest: nat)
    requires id in s.mapInfo && |s.vvTried| == TRIED_BUCKET_COUNT && dest < |s.vvNew|
    requires nPos < |s.vvTried[h.TriedBucket(s.mapInfo[id])]|
    requires s.vvTried[h.TriedBucket(s.mapInfo[id])][nPos] in s.mapInfo
    requires s.vvTried[h.TriedBucket(s.mapInfo[id])][nPos] != id
    requires var k := h.TriedBucket(s.mapInfo[id]);
      var victim := s.vvTried[k][nPos];
      var counted := s.mapInfo[id := s.mapInfo[id].(nRefCount := 0)];
      var evicted := counted[victim := counted[victim].(fInTried := false, nRefCount := 1)];
      var without := Without(s.vvNew, id, |s.vvNew|);
      t == s.(mapInfo := evicted[id := evicted[id].(fInTried := true)],
              vvNew := without[dest := without[dest] + {victim}],
              vvTried := s.vvTried[k := s.vvTried[k][nPos := id]])
    ensures t == Replaced(h, s, id, nPos, dest)
  {
    var victim := s.vvTried[h.TriedBucket(s.mapInfo[id])][nPos];
    var counted := s.mapInfo[id := s.mapInfo[id].(nRefCount := 0)];
    var evicted := counted[victim := counted[victim].(fInTried := false, nRefCount := 1)];
    assert evicted[id := evicted[id].(fInTried := true)] ==
      s.mapInfo[id := AsTried(s.mapInfo[id])][victim := AsEvicted(s.mapInfo[victim])];
  }

  lemma ReplaceMoves(h: Hashes, s: Tables, id: int, nPos: nat, dest: nat)
    requires id in s.mapInfo && |s.vvTried| == TRIED_BUCKET_COUNT && dest < |s.vvNew|
    requires nPos < |s.vvTried[h.TriedBucket(s.mapInfo[id])]|
    requires |s.vvTried[h.TriedBucket(s.mapInfo[id])]| >= TRIED_BUCKET_SIZE
    requires var victim := s.vvTried[h.TriedBucket(s.mapInfo[id])][nPos];
      && victim in s.mapInfo && s.mapInfo[victim].fInTried && victim != id && victim != NONE
      && h.TriedBucket(s.mapInfo[victim]) == h.TriedBucket(s.mapInfo[id])
    ensures TriedMove(h, s, Replaced(h, s, id, nPos, dest), id, s.vvTried[h.TriedBucket(s.mapInfo[id])][nPos])
    ensures Replaced(h, s, id, nPos, dest).vvNew ==
            Inserted(Without(s.vvNew, id, |s.vvNew|), dest, s.vvTried[h.TriedBucket(s.mapInfo[id])][nPos])
  {
    assert Replaced(h, s, id, nPos, dest).mapInfo.Keys == s.mapInfo.Keys;
  }

  /** Reordering tried buckets beforehand does not show in the outcome. */
  lemma SameMove(h: Hashes, s: Tables, s': Tables, t: Tables, id: int, victim: int)
    requires s' == s.(vvTried := s'.vvTried) && |s'.vvTried| == |s.vvTried| == TRIED_BUCKET_COUNT
    requires forall k | 0 <= k < |s.vvTried| :: |s'.vvTried[k]| == |s.vvTried[k]|
    requires TriedMove(h, s', t, id, victim)
    ensures TriedMove(h, s, t, id, victim)
  {
  }

  /** Counting down first makes no difference to what deleting leaves. */
  lemma CountedDown(s: Tables, id: int)
    requires id in s.mapInfo && RandomIndex(s.mapInfo, s.vRandom)
    ensures var s' := s.(mapInfo := s.mapInfo[id := s.mapInfo[id].(nRefCount := s.mapInfo[id].nRefCount - 1)]);
      var p, q := s.mapInfo[id].nRandomPos, |s.vRandom| - 1;
      && 0 <= p < |s.vRandom| && s.vRandom[p] in s'.mapInfo && s.vRandom[q] in s'.mapInfo
      && Swapped(s', p, q) == Swapped(s, p, q).(mapInfo := Swapped(s', p, q).mapInfo)
      && Swapped(s', p, q).mapInfo - {id} == Swapped(s, p, q).mapInfo - {id}
      && id in Swapped(s', p, q).mapInfo && id in Swapped(s, p, q).mapInfo
      && Swapped(s', p, q).mapInfo[id].service == Swapped(s, p, q).mapInfo[id].service
      && Swapped(s, p, q).vvNew == s.vvNew && Swapped(s, p, q).nNew == s.nNew &&
        |Swapped(s, p, q).vRandom| == |s.vRandom|
      && Swapped(s, p, q).mapAddr == s.mapAddr
  {
  }

  lemma BucketKnown(h: Hashes, s: Tables, pending: int, b: nat)
    requires Indexed(h, s, pending) && b < |s.vvNew|
    ensures s.vvNew[b] <= s.mapInfo.Keys && |s.vvNew[b]| <= NEW_BUCKET_SIZE
  {
    forall id | id in s.vvNew[b]
      ensures id in s.mapInfo.Keys
    {
    }
  }

  lemma IdsArePositive(h: Hashes, s: Tables, pending: int)
    requires Indexed(h, s, pending)
    ensures NONE !in s.mapInfo && forall id | id in s.mapInfo :: 0 <= id
  {
  }

  // ---------------------------------------------------------------- outcomes

  /** Known with exactly this port. */
  predicate IsKnown(s: Tables, addr: Service) {
    addr.ip in s.mapAddr && s.mapAddr[addr.ip] in s.mapInfo && s.mapInfo[s.mapAddr[addr.ip]].service == addr
  }

  function Succeeded(e: AddrInfo, nTime: int): AddrInfo {
    e.(nLastSuccess := nTime, nLastTry := nTime, nTime := nTime, nAttempts := 0)
  }

  /** After Good_ the entry is tried, with its statistics set; at most one entry was evicted, from
      the same tried bucket; nothing was lost. */
  predicate TriedOutcome(h: Hashes, s: Tables, t: Tables, id: int, info: AddrInfo, victim: int) {
    && id in s.mapInfo && t.mapInfo.Keys == s.mapInfo.Keys && t.mapInfo[id] == AsTried(info)
    && (forall x | x in s.mapInfo && x != id && x != victim :: t.mapInfo[x] == s.mapInfo[x])
    && (victim != NONE ==>
          && victim in s.mapInfo && victim != id && s.mapInfo[victim].fInTried
          && h.TriedBucket(s.mapInfo[victim]) == h.TriedBucket(info)
          && t.mapInfo[victim] == AsEvicted(s.mapInfo[victim]))
    && t.mapAddr == s.mapAddr && t.vRandom == s.vRandom && t.nIdCount == s.nIdCount
  }

  lemma AlreadyTried(h: Hashes, s: Tables, t: Tables, id: int, info: AddrInfo)
    requires Indexed(h, s, NONE) && id in s.mapInfo && t == s.(mapInfo := s.mapInfo[id := info])
    requires info.fInTried && s.mapInfo[id].fInTried && info.nRefCount == s.mapInfo[id].nRefCount
    ensures TriedOutcome(h, s, t, id, info, NONE)
  {
    assert t.mapInfo.Keys == s.mapInfo.Keys;
  }

  lemma MovedAfterUpdate(h: Hashes, s: Tables, t: Tables, u: Tables, id: int, info: AddrInfo, victim: int)
    requires id in s.mapInfo && t == s.(mapInfo := s.mapInfo[id := info]) && TriedMove(h, t, u, id, victim)
    ensures TriedOutcome(h, s, u, id, info, victim)
  {
    assert t.mapInfo.Keys == s.mapInfo.Keys;
  }

  lemma IndexHasEntry(h: Hashes, s: Tables, ip: NetAddr)
    requires Indexed(h, s, NONE)
    ensures ip in s.mapAddr ==>
      s.mapAddr[ip] in s.mapInfo && s.mapInfo[s.mapAddr[ip]].service.ip == ip && s.mapAddr[ip] != NONE
  {
  }

  /** Only the time of the success decides whether all times stay plausible. */
  lemma OutcomeTimes(h: Hashes, s: Tables, t: Tables, id: int, info: AddrInfo, victim: int)
    requires TriedOutcome(h, s, t, id, info, victim) && NONE !in s.mapInfo
    requires info.nLastTry == info.nLastSuccess
    ensures TimesPlausible(s.mapInfo) ==> (TimesPlausible(t.mapInfo) <==> info.nLastSuccess > 0)
  {
    if TimesPlausible(s.mapInfo) && info.nLastSuccess > 0 {
      forall x | x in t.mapInfo
        ensures PlausibleTimes(t.mapInfo[x])
      {
        TimesAt(s.mapInfo, x);
      }
    } else if TimesPlausible(t.mapInfo) {
      assert PlausibleTimes(t.mapInfo[id]);
    }
  }

  lemma CountAtMost(h: Hashes, s: Tables, id: int)
    requires Indexed(h, s, NONE) && id in s.mapInfo
    ensures 0 <= s.mapInfo[id].nRefCount <= NEW_BUCKETS_PER_ADDRESS
  {
  }

  lemma HeldByABucket(h: Hashes, s: Tables, id: int)
    requires Indexed(h, s, NONE) && id in s.mapInfo && !s.mapInfo[id].fInTried
    ensures exists b: nat :: b < |s.vvNew| && id in s.vvNew[b]
  {
    assert |Holders(s.vvNew, id)| >= 1;
    var b :| b in Holders(s.vvNew, id);
    assert id in s.vvNew[b];
  }

  function Rotated(n: nat, r: nat, m: nat): (b: nat)
    requires n > 0
    ensures b < n
  {
    (m + r) % n
  }

  lemma RotationCovers(n: nat, r: nat, b: nat) returns (m: nat)
    requires b < n && r < n
    ensures m < n && Rotated(n, r, m) == b
  {
    if b >= r {
      m := b - r;
      RemainderIs(m + r, n, 0, b);
    } else {
      m := b + n - r;
      RemainderIs(m + r, n, 1, b);
    }
  }

  // ---------------------------------------------------------------- steps of GetAddr_

  /** How many addresses GetAddr_ gives out. */
  function AddrCount(size: nat): nat {
    if GETADDR_MAX_PCT * size / 100 > GETADDR_MAX then GETADDR_MAX else GETADDR_MAX_PCT * size / 100
  }

  lemma AddrCountIs(size: nat, nNodes: nat)
    requires nNodes == if GETADDR_MAX_PCT * size / 100 > GETADDR_MAX then GETADDR_MAX else GETADDR_MAX_PCT * size / 100
    ensures nNodes == AddrCount(size) <= size && AddrCount(size) == MinNat(2500, 23 * size / 100)
  {
  }

  predicate AddressesOf(info: Infos, ids: seq<int>, addrs: seq<Address>) {
    |ids| == |addrs| && forall n | 0 <= n < |ids| ::
      ids[n] in info && addrs[n] == Address(info[ids[n]].service, info[ids[n]].nServices, info[ids[n]].nTime)
  }

  /** The first `n` places exchanged one after the other with later ones. */
  function Shuffled(v: seq<int>, rand: nat -> nat, n: nat): (r: seq<int>)
    requires n <= |v|
    ensures |r| == |v| && multiset(r) == multiset(v)
    decreases n
  {
    if n == 0 then v
    else
      var w := Shuffled(v, rand, n - 1);
      MultisetExchanged(w, n - 1, n - 1 + rand(n - 1) % (|w| - (n - 1)));
      Exchanged(w, n - 1, n - 1 + rand(n - 1) % (|w| - (n - 1)))
  }

  lemma ShuffledNext(s: Tables, v: seq<int>, rand: nat -> nat, n: nat, q: nat)
    requires n < |v| && s.vRandom == Shuffled(v, rand, n) && q == GetRandInt(|v| - n, rand(n)) + n
    requires s.vRandom[n] in s.mapInfo && s.vRandom[q] in s.mapInfo
    ensures Swapped(s, n, q).vRandom == Shuffled(v, rand, n + 1)
  {
    var w := s.vRandom;
    assert Exchanged(w, n, q) == w[n := w[q]][q := w[n]];
  }

  /** Addresses of entries, all different. */
  predicate AreKnownAddresses(info: Infos, addrs: seq<Address>) {
    && (forall n | 0 <= n < |addrs| :: IsEntryOf(info, addrs[n]))
    && (forall m, n | 0 <= m < n < |addrs| :: addrs[m].service.ip != addrs[n].service.ip)
  }

  predicate IsEntryOf(info: Infos, addr: Address) {
    exists id | id in info :: addr == Address(info[id].service, info[id].nServices, info[id].nTime)
  }

  lemma FactsReflexive(info: Infos)
    ensures SameFacts(info, info)
  {
  }

  lemma FactsTransitive(a: Infos, b: Infos, c: Infos)
    requires SameFacts(a, b) && SameFacts(b, c)
    ensures SameFacts(a, c)
  {
    forall id | id in a
      ensures Alike(c[id], a[id])
    {
      assert Alike(b[id], a[id]);
    }
  }

  lemma RandomIsKnown(h: Hashes, s: Tables)
    requires Indexed(h, s, NONE)
    ensures forall p | 0 <= p < |s.vRandom| :: s.vRandom[p] in s.mapInfo
  {
  }

  lemma SwapShowsNext(s: Tables, n: nat, q: nat)
    requires n <= q < |s.vRandom| && s.vRandom[n] in s.mapInfo && s.vRandom[q] in s.mapInfo
    ensures |Swapped(s, n, q).vRandom| == |s.vRandom| && Swapped(s, n, q).vRandom[..n] == s.vRandom[..n]
  {
  }

  lemma AddressListed(info: Infos, info': Infos, ids: seq<int>, addrs: seq<Address>, id: int)
    requires SameFacts(info, info') && AddressesOf(info, ids, addrs) && id in info'
    ensures AddressesOf(info, ids + [id], addrs + [Address(info'[id].service, info'[id].nServices, info'[id].nTime)])
  {
    assert Alike(info'[id], info[id]);
  }

  /** After `n` addresses were handed out. */
  ghost predicate Handing(h: Hashes, s: Tables, t: Tables, rand: nat -> nat, n: nat, addrs: seq<Address>) {
    && Indexed(h, t, NONE) && SameFacts(s.mapInfo, t.mapInfo) && |t.vRandom| == |s.vRandom| >= n
    && t.vRandom == Shuffled(s.vRandom, rand, n) && AddressesOf(s.mapInfo, t.vRandom[..n], addrs)
  }

  lemma HandingStarts(h: Hashes, s: Tables, rand: nat -> nat)
    requires Indexed(h, s, NONE)
    ensures Handing(h, s, s, rand, 0, [])
  {
    hide Indexed;
    FactsReflexive(s.mapInfo);
  }

  lemma HandingAt(h: Hashes, s: Tables, t: Tables, rand: nat -> nat, n: nat, addrs: seq<Address>)
    requires Handing(h, s, t, rand, n, addrs)
    ensures |t.vRandom| == |s.vRandom| && forall p | 0 <= p < |t.vRandom| :: t.vRandom[p] in t.mapInfo
  {
    hide SameFacts, Shuffled, AddressesOf;
    RandomIsKnown(h, t);
  }

  lemma HandingNext(h: Hashes, s: Tables, t: Tables, rand: nat -> nat, n: nat, q: nat, addrs: seq<Address>)
    requires Handing(h, s, t, rand, n, addrs) && n < |t.vRandom| && q == GetRandInt(|t.vRandom| - n, rand(n)) + n
    requires forall p | 0 <= p < |t.vRandom| :: t.vRandom[p] in t.mapInfo
    ensures var u := Swapped(t, n, q);
      && |u.vRandom| == |t.vRandom| && u.vRandom[n] in u.mapInfo
      && var info := u.mapInfo[u.vRandom[n]];
         Handing(h, s, u, rand, n + 1, addrs + [Address(info.service, info.nServices, info.nTime)])
  {
    hide Indexed, SameFacts, Shuffled, AddressesOf, Swapped;
    var u := Swapped(t, n, q);
    SwapKeeps(h, t, NONE, n, q);
    SwapShowsNext(t, n, q);
    ShuffledNext(t, s.vRandom, rand, n, q);
    RandomIsKnown(h, u);
    FactsTransitive(s.mapInfo, t.mapInfo, u.mapInfo);
    AddressListed(s.mapInfo, u.mapInfo, t.vRandom[..n], addrs, u.vRandom[n]);
    assert u.vRandom[..n + 1] == t.vRandom[..n] + [u.vRandom[n]];
  }

  lemma HandingEnds(h: Hashes, s: Tables, t: Tables, rand: nat -> nat, n: nat, addrs: seq<Address>)
    requires Indexed(h, s, NONE) && Handing(h, s, t, rand, n, addrs)
    ensures Indexed(h, t, NONE) && SameFacts(s.mapInfo, t.mapInfo) && AreKnownAddresses(s.mapInfo, addrs)
    ensures n <= |t.vRandom| == |s.vRandom| && t.vRandom == Shuffled(s.vRandom, rand, n)
    ensures AddressesOf(s.mapInfo, t.vRandom[..n], addrs) && |addrs| == n
  {
    hide Indexed, SameFacts, Shuffled, AreKnownAddresses;
    DistinctAddresses(h, s, t, t.vRandom[..n], addrs);
  }

  lemma DistinctAddresses(h: Hashes, s: Tables, t: Tables, ids: seq<int>, addrs: seq<Address>)
    requires Indexed(h, s, NONE) && Indexed(h, t, NONE) && ids <= t.vRandom
    requires AddressesOf(s.mapInfo, ids, addrs)
    ensures AreKnownAddresses(s.mapInfo, addrs)
  {
    hide TriedBuckets, RefCounts, NewBuckets, Counts;
    forall n | 0 <= n < |addrs|
      ensures IsEntryOf(s.mapInfo, addrs[n])
    {
      var id := ids[n];
      assert id in s.mapInfo &&
        addrs[n] == Address(s.mapInfo[id].service, s.mapInfo[id].nServices, s.mapInfo[id].nTime);
    }
    forall m, n | 0 <= m < n < |addrs|
      ensures addrs[m].service.ip != addrs[n].service.ip
    {
      assert ids[m] == t.vRandom[m] && ids[n] == t.vRandom[n];
      assert s.mapAddr[addrs[m].service.ip] == ids[m] && s.mapAddr[addrs[n].service.ip] == ids[n];
    }
  }

  // ---------------------------------------------------------------- steps of Add_

  /** An entry after its address was announced again. */
  function Heard(e: AddrInfo, addr: Address, nTimePenalty: int, nNow: int): AddrInfo {
    e.(nTime := HeardTime(e.nTime, addr.nTime, nNow, nTimePenalty), nServices := e.nServices + addr.nServices)
  }

  /** A new entry, in one new bucket; of the others at most one lost a place in that same bucket,
      which was full. */
  predicate AddedNew(h: Hashes, s: Tables, t: Tables, addr: Address, source: NetAddr, nTimePenalty: int, victim: int) {
    var id := s.nIdCount;
    var e := NewInfo(addr, source).(nTime := Max0(addr.nTime - nTimePenalty), nRefCount := 1);
    && id in t.mapInfo && Alike(t.mapInfo[id], e) && t.nIdCount == s.nIdCount + 1
    && OnlyUnlinks(s.mapInfo[id := e], t.mapInfo, victim) && victim != id
    && t.vvTried == s.vvTried
    && Relinked(s.vvNew, t.vvNew, h.NewBucket(e, source), id, victim)
  }

  /** One bucket gained an id, and lost another if it was full. */
  predicate Relinked(vvNew: seq<set<int>>, vvNew': seq<set<int>>, b: nat, id: int, victim: int) {
    && b < |vvNew| == |vvNew'|
    && (forall c | 0 <= c < |vvNew| && c != b :: vvNew'[c] == vvNew[c])
    && vvNew'[b] == vvNew[b] - {victim} + {id}
    && (victim != NONE <==> |vvNew[b]| == NEW_BUCKET_SIZE)
    && (victim != NONE ==> victim in vvNew[b])
  }

  /** The announcement is news about an entry that is not tried and not in as many buckets as allowed. */
  predicate MayLink(e: AddrInfo, addr: Address) {
    && addr.nTime != 0 && (e.nTime == 0 || addr.nTime > e.nTime)
    && !e.fInTried && e.nRefCount < NEW_BUCKETS_PER_ADDRESS
  }

  /** One number in 2^n. */
  ghost predicate Lucky(nRefCount: int, rand: nat) {
    nRefCount >= 0 && exists q: nat :: rand == q * Pow2(nRefCount)
  }

  lemma LuckyIff(nRefCount: nat, rand: nat)
    ensures Lucky(nRefCount, rand) <==> rand % Pow2(nRefCount) == 0
  {
    var d := Pow2(nRefCount);
    if q: nat :| rand == q * d {
      RemainderIs(rand, d, q, 0);
    }
    if rand % d == 0 {
      assert rand == (rand / d) * d;
    }
  }

  /** A known entry: refreshed, and linked into one more bucket when the announcement is news, the
      random number allows it and the entry is not there yet. */
  ghost predicate AddedAgain(h: Hashes, s: Tables, t: Tables, addr: Address, source: NetAddr, nTimePenalty: int,
                             nNow: int, rand: nat, victim: int) {
    && addr.service.ip in s.mapAddr && s.mapAddr[addr.service.ip] in s.mapInfo
    && var id := s.mapAddr[addr.service.ip];
       var e := Heard(s.mapInfo[id], addr, nTimePenalty, nNow);
       && victim != id && t.vvTried == s.vvTried && t.nIdCount == s.nIdCount
       && h.NewBucket(e, source) < |s.vvNew|
       && if MayLink(e, addr) && Lucky(e.nRefCount, rand) && id !in s.vvNew[h.NewBucket(e, source)] then
            && id in t.mapInfo && Alike(t.mapInfo[id], e.(nRefCount := e.nRefCount + 1))
            && OnlyUnlinks(s.mapInfo[id := e.(nRefCount := e.nRefCount + 1)], t.mapInfo, victim)
            && Relinked(s.vvNew, t.vvNew, h.NewBucket(e, source), id, victim)
          else victim == NONE && t == s.(mapInfo := s.mapInfo[id := e])
  }

  lemma AddedNewTimes(h: Hashes, s: Tables, t: Tables, addr: Address, source: NetAddr, nTimePenalty: int, victim: int)
    requires AddedNew(h, s, t, addr, source, nTimePenalty, victim)
    ensures TimesPlausible(s.mapInfo) ==> TimesPlausible(t.mapInfo)
  {
    hide OnlyUnlinks, Relinked;
    var id := s.nIdCount;
    var e := NewInfo(addr, source).(nTime := Max0(addr.nTime - nTimePenalty), nRefCount := 1);
    if TimesPlausible(s.mapInfo) {
      UnlinkKeepsTimes(s.mapInfo[id := e], t.mapInfo, victim);
    }
  }

  lemma AddedAgainTimes(h: Hashes, s: Tables, t: Tables, addr: Address, source: NetAddr, nTimePenalty: int, nNow: int,
                        rand: nat, victim: int)
    requires AddedAgain(h, s, t, addr, source, nTimePenalty, nNow, rand, victim)
    ensures TimesPlausible(s.mapInfo) ==> TimesPlausible(t.mapInfo)
  {
    hide OnlyUnlinks, Relinked;
    var id := s.mapAddr[addr.service.ip];
    var e := Heard(s.mapInfo[id], addr, nTimePenalty, nNow);
    if TimesPlausible(s.mapInfo) {
      assert PlausibleTimes(s.mapInfo[id]);
      if t.mapInfo != s.mapInfo[id := e] {
        UnlinkKeepsTimes(s.mapInfo[id := e.(nRefCount := e.nRefCount + 1)], t.mapInfo, victim);
      }
    }
  }

  lemma NothingUnlinked(info: Infos)
    requires NONE !in info
    ensures OnlyUnlinks(info, info, NONE)
  {
  }

  lemma OthersStay(info: Infos, info': Infos, victim: int, id: int)
    requires OnlyUnlinks(info, info', victim) && id in info && id != victim
    ensures id in info' && Alike(info'[id], info[id])
  {
  }

  lemma Linkable(e: AddrInfo, addr: Address)
    requires MayLink(e, addr)
    ensures !e.fInTried && e.nRefCount < NEW_BUCKETS_PER_ADDRESS
  {
  }

  lemma BucketOfHeard(h: Hashes, e: AddrInfo, addr: Address, source: NetAddr, nTimePenalty: int, nNow: int)
    requires e.service.ip == addr.service.ip
    ensures h.NewBucket(Heard(e, addr, nTimePenalty, nNow), source) == h.NewBucket(NewInfo(addr, source), source)
  {
  }

  lemma BucketOfService(h: Hashes, e: AddrInfo, f: AddrInfo, src: NetAddr)
    requires e.service.ip == f.service.ip
    ensures h.NewBucket(e, src) == h.NewBucket(f, src)
  {
  }

  /** Counting a reference to an entry that is not in the bucket does not change who has to leave it. */
  lemma VictimBefore(h: Hashes, s: Tables, u: Tables, id: int, b: nat, nNow: int, rand: nat -> nat, victim: int)
    requires Indexed(h, s, NONE) && b < |s.vvNew| && u.vvNew == s.vvNew && id !in s.vvNew[b]
    requires forall x | x in s.mapInfo && x != id :: x in u.mapInfo && u.mapInfo[x] == s.mapInfo[x]
    requires victim != NONE ==> IsVictim(u.mapInfo, u.vvNew[b], nNow, rand, victim)
    ensures victim != NONE ==> IsVictim(s.mapInfo, s.vvNew[b], nNow, rand, victim)
  {
    hide IsVictim;
    BucketKnown(h, s, NONE, b);
    if victim != NONE {
      IsVictimSame(u.mapInfo, s.mapInfo, s.vvNew[b], nNow, rand, victim);
    }
  }

  lemma BucketsExist(h: Hashes, s: Tables)
    requires Indexed(h, s, NONE)
    ensures |s.vvNew| == NEW_BUCKET_COUNT
  {
  }

  lemma OnlyHeard(h: Hashes, s: Tables, t: Tables, addr: Address, source: NetAddr, nTimePenalty: int, nNow: int,
                  rand: nat)
    requires addr.service.ip in s.mapAddr && s.mapAddr[addr.service.ip] in s.mapInfo
    requires s.mapAddr[addr.service.ip] != NONE && |s.vvNew| == NEW_BUCKET_COUNT
    requires var id := s.mapAddr[addr.service.ip];
      var e := Heard(s.mapInfo[id], addr, nTimePenalty, nNow);
      && t == s.(mapInfo := s.mapInfo[id := e])
      && (MayLink(e, addr) && Lucky(e.nRefCount, rand) ==> id in s.vvNew[h.NewBucket(e, source)])
    ensures AddedAgain(h, s, t, addr, source, nTimePenalty, nNow, rand, NONE)
  {
  }

  lemma LinkedAgain(h: Hashes, s: Tables, t: Tables, u: Tables, v: Tables, addr: Address, source: NetAddr,
                    nTimePenalty: int, nNow: int, rand: nat, victim: int)
    requires addr.service.ip in s.mapAddr && s.mapAddr[addr.service.ip] in s.mapInfo
    requires |s.vvNew| == NEW_BUCKET_COUNT
    requires var id := s.mapAddr[addr.service.ip];
      var e := Heard(s.mapInfo[id], addr, nTimePenalty, nNow);
      && t == s.(mapInfo := s.mapInfo[id := e]) && u == t.(mapInfo := t.mapInfo[id := e.(nRefCount := e.nRefCount + 1)])
      && MayLink(e, addr) && Lucky(e.nRefCount, rand)
      && id !in s.vvNew[h.NewBucket(e, source)]
      && id in v.mapInfo && Alike(v.mapInfo[id], u.mapInfo[id])
      && OnlyUnlinks(u.mapInfo, v.mapInfo, victim) && victim != id
      && Relinked(u.vvNew, v.vvNew, h.NewBucket(t.mapInfo[id], source), id, victim)
      && v.vvTried == u.vvTried && v.nIdCount == u.nIdCount
    ensures AddedAgain(h, s, v, addr, source, nTimePenalty, nNow, rand, victim)
  {
    var id := s.mapAddr[addr.service.ip];
    var e := Heard(s.mapInfo[id], addr, nTimePenalty, nNow);
    assert u.mapInfo == s.mapInfo[id := e.(nRefCount := e.nRefCount + 1)];
  }

  lemma CreatePends(h: Hashes, s: Tables, u: Tables, addr: Address, source: NetAddr, nTimePenalty: int)
    requires Indexed(h, s, NONE) && addr.service.ip !in s.mapAddr
    requires var id := s.nIdCount;
      var created := Created(s, NewInfo(addr, source));
      var timed := created.mapInfo[id := created.mapInfo[id].(nTime := Max0(created.mapInfo[id].nTime - nTimePenalty))];
      u == created.(mapInfo := timed[id := timed[id].(nRefCount := timed[id].nRefCount + 1)], nNew := s.nNew + 1)
    ensures Indexed(h, u, s.nIdCount) && s.nIdCount != NONE && s.nIdCount in u.mapInfo
    ensures forall b | 0 <= b < |u.vvNew| :: s.nIdCount !in u.vvNew[b]
    ensures |u.vvNew| == NEW_BUCKET_COUNT && u.nIdCount == s.nIdCount + 1
  {
    var e := NewInfo(addr, source).(nTime := Max0(addr.nTime - nTimePenalty), nRefCount := 1);
    CreateKeeps(h, s, e);
    NotInAny(s.vvNew, s.nIdCount);
    assert u == Created(s, e).(nNew := s.nNew + 1);
  }

  lemma LinkedNew(h: Hashes, s: Tables, u: Tables, v: Tables, addr: Address, source: NetAddr, nTimePenalty: int,
                  victim: int)
    requires var id := s.nIdCount;
      var created := Created(s, NewInfo(addr, source));
      var timed := created.mapInfo[id := created.mapInfo[id].(nTime := Max0(created.mapInfo[id].nTime - nTimePenalty))];
      && u == created.(mapInfo := timed[id := timed[id].(nRefCount := timed[id].nRefCount + 1)], nNew := s.nNew + 1)
      && id in v.mapInfo && Alike(v.mapInfo[id], u.mapInfo[id])
      && OnlyUnlinks(u.mapInfo, v.mapInfo, victim) && victim != id
      && Relinked(u.vvNew, v.vvNew, h.NewBucket(timed[id], source), id, victim)
      && v.vvTried == u.vvTried && v.nIdCount == u.nIdCount
    ensures AddedNew(h, s, v, addr, source, nTimePenalty, victim)
  {
    hide OnlyUnlinks, Relinked;
    var id := s.nIdCount;
    var e := NewInfo(addr, source).(nTime := Max0(addr.nTime - nTimePenalty), nRefCount := 1);
    assert u.mapInfo == s.mapInfo[id := e.(nRandomPos := |s.vRandom|)];
    PlaceIgnored(s.mapInfo, v.mapInfo, id, e, |s.vRandom|, victim);
  }

  lemma PlaceIgnored(info: Infos, info': Infos, id: int, e: AddrInfo, pos: int, victim: int)
    requires OnlyUnlinks(info[id := e.(nRandomPos := pos)], info', victim) && victim != id
    ensures OnlyUnlinks(info[id := e], info', victim)
  {
  }

  // ---------------------------------------------------------------- steps of saving and loading

  /** Every element of the set is given its place in the list. */
  predicate Numbered(mapUnkIds: map<int, int>, newIds: seq<int>, s: set<int>) {
    forall x | x in s :: x in mapUnkIds && 0 <= mapUnkIds[x] < |newIds| && newIds[mapUnkIds[x]] == x
  }

  lemma NumberedSubset(mapUnkIds: map<int, int>, newIds: seq<int>, s: set<int>, t: set<int>)
    requires Numbered(mapUnkIds, newIds, s) && t <= s
    ensures Numbered(mapUnkIds, newIds, t)
  {
  }

  lemma NewIsCounted(h: Hashes, s: Tables)
    requires Indexed(h, s, NONE)
    ensures s.nNew == |NewIds(s.mapInfo)| && s.nTried == |TriedIds(s.mapInfo)|
    ensures forall x | x in s.mapInfo :: x in NewIds(s.mapInfo) <==> s.mapInfo[x].nRefCount != 0
  {
  }

  lemma BucketIsNew(h: Hashes, s: Tables, b: nat)
    requires Indexed(h, s, NONE) && b < |s.vvNew|
    ensures s.vvNew[b] <= NewIds(s.mapInfo)
  {
    forall id | id in s.vvNew[b]
      ensures id in NewIds(s.mapInfo)
    {
      assert id in s.mapInfo;
      PositiveCount(s.mapInfo, s.vvNew, NONE, id, b);
    }
  }

  /** Stopping at the count misses nothing. */
  lemma AllCounted(ids: seq<int>, s: set<int>, remaining: set<int>, count: int)
    requires Distinct(ids) && count == |s|
    requires forall x :: x in ids <==> x in s && x !in remaining
    requires remaining == {} || |ids| == count
    ensures Lists(ids, s) && s !! remaining
  {
    ElementCount(ids);
    Smaller(Elements(ids), s);
    if remaining != {} {
      assert Elements(ids) == s;
    }
  }

  lemma IndexAdded(bucket: seq<int>, newIds: seq<int>, done: set<int>, nIndex: int, id: int)
    requires Indexes(bucket, newIds, done) && id !in done
    requires 0 <= nIndex < |newIds| && newIds[nIndex] == id
    ensures Indexes(bucket + [nIndex], newIds, done + {id})
  {
    var bucket' := bucket + [nIndex];
    forall x | x in done + {id}
      ensures exists i :: 0 <= i < |bucket'| && 0 <= bucket'[i] < |newIds| && newIds[bucket'[i]] == x
    {
      if x in done {
        var i :| 0 <= i < |bucket| && 0 <= bucket[i] < |newIds| && newIds[bucket[i]] == x;
        assert bucket'[i] == bucket[i];
      } else {
        assert bucket'[|bucket|] == nIndex;
      }
    }
  }

  lemma LoadStarts(h: Hashes, file: File)
    requires |file.buckets| <= NEW_BUCKET_COUNT
    ensures LoadNew(h, file, 0) == Cleared(|file.triedInfos|, |file.newInfos|)
    ensures LoadTried(h, file, 0) == LoadNew(h, file, |file.newInfos|).(nIdCount := |file.newInfos|)
    ensures LoadBuckets(file, LoadTried(h, file, |file.triedInfos|), 0) == LoadTried(h, file, |file.triedInfos|)
  {
  }

  lemma BucketLoads(file: File, s: Tables, b: nat)
    requires b < |file.buckets| <= |s.vvNew|
    ensures LoadBuckets(file, s, b + 1) == LoadBucket(file, LoadBuckets(file, s, b), b, |file.buckets[b]|)
  {
  }

  lemma RecordCountsNone(r: Record)
    ensures FromRecord(r).nRefCount == 0
  {
  }

  lemma InsertedIs(vvNew: seq<set<int>>, b: nat, id: int)
    requires b < |vvNew|
    ensures Inserted(vvNew, b, id) == vvNew[b := vvNew[b] + {id}]
  {
  }
}
