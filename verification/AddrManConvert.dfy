/** Loading a file that was written with another number of new buckets. */
module AddrManConversions {
  import opened AddrManFiles
  import opened AddrMans
  import opened Arithmetic

  /** No address occurs twice, and bucket entries are numbers of new records. */
  predicate SoundFile(file: File) {
    var all := file.newInfos + file.triedInfos;
    && (forall i, j | 0 <= i < j < |all| :: all[i].service.ip != all[j].service.ip)
    && (forall b, n | 0 <= b < |file.buckets| && 0 <= n < |file.buckets[b]| ::
          0 <= file.buckets[b][n] < |file.newInfos|)
  }

  /** The new records that their own source sends to bucket `b`. */
  function NewInBucket(h: Hashes, file: File, b: nat): set<int> {
    FirstInBucket(h, file, b, |file.newInfos|)
  }

  function FirstInBucket(h: Hashes, file: File, b: nat, n: nat): set<int>
    requires n <= |file.newInfos|
  {
    set i | 0 <= i < n && NewBucketOf(h, file.newInfos[i]) == b
  }

  function NewBucketOf(h: Hashes, r: Record): (b: nat)
    ensures b < NEW_BUCKET_COUNT
  {
    h.NewBucket(FromRecord(r), r.source)
  }

  function TriedBucketOf(h: Hashes, r: Record): (k: nat)
    ensures k < TRIED_BUCKET_COUNT
  {
    h.TriedBucket(FromRecord(r))
  }

  /** How many of the first `n` tried records belong to bucket `k`. */
  function TriedInBucket(h: Hashes, file: File, k: nat, n: nat): nat
    requires n <= |file.triedInfos|
    decreases n
  {
    if n == 0 then 0
    else TriedInBucket(h, file, k, n - 1) + if TriedBucketOf(h, file.triedInfos[n - 1]) == k then 1 else 0
  }

  /** How many of the first `n` tried records come after the 64 that fill their bucket. */
  function Lost(h: Hashes, file: File, n: nat): (r: nat)
    requires n <= |file.triedInfos|
    ensures r <= n
    decreases n
  {
    if n == 0 then 0
    else
      var k := TriedBucketOf(h, file.triedInfos[n - 1]);
      Lost(h, file, n - 1) + if TriedInBucket(h, file, k, n - 1) >= TRIED_BUCKET_SIZE then 1 else 0
  }

  /** Fewer than 64 of the earlier tried records belong to the bucket of record `i`. */
  predicate FindsRoom(h: Hashes, file: File, i: nat)
    requires i < |file.triedInfos|
  {
    TriedInBucket(h, file, TriedBucketOf(h, file.triedInfos[i]), i) < TRIED_BUCKET_SIZE
  }

  /** The numbers of the tried records among the first `n` that find room, in the order of the file. */
  function Kept(h: Hashes, file: File, n: nat): (r: seq<nat>)
    requires n <= |file.triedInfos|
    ensures |r| == n - Lost(h, file, n)
    ensures forall j | 0 <= j < |r| :: r[j] < n
    decreases n
  {
    if n == 0 then []
    else
      var i: nat := n - 1;
      if FindsRoom(h, file, i) then Kept(h, file, i) + [i] else Kept(h, file, i)
  }

  lemma NothingKept(h: Hashes, file: File)
    ensures Kept(h, file, 0) == []
  {
  }

  /** These are all of them, each once and in increasing order. */
  lemma {:induction false} KeptFindRoom(h: Hashes, file: File, n: nat)
    requires n <= |file.triedInfos|
    ensures var r := Kept(h, file, n);
      && (forall i: nat :: i in r <==> i < n && FindsRoom(h, file, i))
      && (forall j, k | 0 <= j < k < |r| :: r[j] < r[k])
    decreases n
  {
    hide FindsRoom, Kept;
    if n == 0 {
      NothingKept(h, file);
    } else {
      KeptFindRoom(h, file, n - 1);
      KeptStep(h, file, n - 1);
    }
  }

  predicate BucketsKnown(info: Infos, vvNew: seq<set<int>>) {
    && |vvNew| == NEW_BUCKET_COUNT
    && forall b, id | 0 <= b < |vvNew| && id in vvNew[b] :: id in info
  }

  predicate AddrsFrom(mapAddr: map<NetAddr, int>, records: seq<Record>) {
    forall ip | ip in mapAddr :: exists i :: 0 <= i < |records| && records[i].service.ip == ip
  }

  predicate IsNewAddr(r: Record, records: seq<Record>) {
    forall i | 0 <= i < |records| :: records[i].service.ip != r.service.ip
  }

  ghost predicate FirstIds(info: Infos, n: nat) {
    forall id :: id in info <==> 0 <= id < n
  }

  /** All indexes agree after `records` were read, `a` of them as new entries and `c` as tried ones. */
  ghost predicate Partly(h: Hashes, s: Tables, records: seq<Record>, a: nat, c: nat) {
    && FirstIds(s.mapInfo, a + c) && |s.vRandom| == a + c
    && AddrIndex(s.mapInfo, s.mapAddr) && RandomIndex(s.mapInfo, s.vRandom) && AddrsFrom(s.mapAddr, records)
    && RefCounts(s.mapInfo, s.vvNew, NONE) && BucketsKnown(s.mapInfo, s.vvNew) && TriedBuckets(h, s.mapInfo, s.vvTried)
    && |NewIds(s.mapInfo)| == a && |TriedIds(s.mapInfo)| == c
  }

  lemma NotListed(mapAddr: map<NetAddr, int>, records: seq<Record>, r: Record, id: int)
    requires AddrsFrom(mapAddr, records) && IsNewAddr(r, records)
    ensures r.service.ip !in mapAddr
    ensures AddrsFrom(mapAddr[r.service.ip := id], records + [r])
    ensures AddrsFrom(mapAddr, records + [r])
  {
    var more, mapAddr' := records + [r], mapAddr[r.service.ip := id];
    forall ip | ip in mapAddr
      ensures exists i :: 0 <= i < |more| && more[i].service.ip == ip
    {
      var i :| 0 <= i < |records| && records[i].service.ip == ip;
      assert more[i].service.ip == ip;
    }
    forall ip | ip in mapAddr'
      ensures exists i :: 0 <= i < |more| && more[i].service.ip == ip
    {
      if ip == r.service.ip {
        assert more[|records|].service.ip == ip;
      } else {
        var i :| 0 <= i < |records| && records[i].service.ip == ip;
        assert more[i].service.ip == ip;
      }
    }
  }

  lemma NewCounted(info: Infos, vvNew: seq<set<int>>, b: nat, id: int, e: AddrInfo)
    requires RefCounts(info, vvNew, NONE) && BucketsKnown(info, vvNew) && b < |vvNew|
    requires id !in info && id != NONE && e.nRefCount == 1 && !e.fInTried
    ensures RefCounts(info[id := e], Inserted(vvNew, b, id), NONE)
    ensures BucketsKnown(info[id := e], Inserted(vvNew, b, id))
  {
    HeldByNone(info, vvNew, id);
    hide Holders;
    forall x
      ensures |Holders(Inserted(vvNew, b, id), x)| == |Holders(vvNew, x)| + if x == id then 1 else 0
    {
      InsertHolds(vvNew, b, id, x);
    }
  }

  lemma HeldByNone(info: Infos, vvNew: seq<set<int>>, id: int)
    requires BucketsKnown(info, vvNew) && id !in info
    ensures |Holders(vvNew, id)| == 0
  {
    assert Holders(vvNew, id) == {};
  }

  lemma TriedCounted(info: Infos, vvNew: seq<set<int>>, id: int, e: AddrInfo)
    requires RefCounts(info, vvNew, NONE) && BucketsKnown(info, vvNew)
    requires id !in info && id != NONE && e.nRefCount == 0 && e.fInTried
    ensures RefCounts(info[id := e], vvNew, NONE) && BucketsKnown(info[id := e], vvNew)
  {
    HeldByNone(info, vvNew, id);
    hide Holders;
  }

  lemma TriedIgnoresNew(h: Hashes, info: Infos, vvTried: seq<seq<int>>, id: int, e: AddrInfo)
    requires TriedBuckets(h, info, vvTried) && id !in info && !e.fInTried
    ensures TriedBuckets(h, info[id := e], vvTried)
  {
  }

  lemma TriedGains(h: Hashes, info: Infos, vvTried: seq<seq<int>>, id: int, e: AddrInfo)
    requires TriedBuckets(h, info, vvTried) && id !in info && e.fInTried
    requires |vvTried[h.TriedBucket(e)]| < TRIED_BUCKET_SIZE
    ensures var k := h.TriedBucket(e); TriedBuckets(h, info[id := e], vvTried[k := vvTried[k] + [id]])
  {
  }

  lemma TriedIdsGain(info: Infos, id: int, e: AddrInfo)
    requires id !in info && e.fInTried
    ensures |TriedIds(info[id := e])| == |TriedIds(info)| + 1 && NewIds(info[id := e]) == NewIds(info)
  {
    assert TriedIds(info[id := e]) == TriedIds(info) + {id};
  }

  lemma FirstIdsSize(info: Infos, n: nat)
    requires FirstIds(info, n)
    ensures |info| == n
  {
    assert info.Keys == Below(n);
    assert |info| == |info.Keys|;
  }

  function Below(n: nat): (r: set<int>)
    ensures |r| == n && forall i :: i in r <==> 0 <= i < n
  {
    if n == 0 then {} else Below(n - 1) + {n - 1}
  }

  lemma NextId(info: Infos, n: nat, e: AddrInfo)
    requires FirstIds(info, n)
    ensures n !in info && FirstIds(info[n := e], n + 1)
  {
  }

  /** Reading one more new record. */
  lemma PartlyNew(h: Hashes, s: Tables, records: seq<Record>, a: nat, r: Record, b: nat, e: AddrInfo)
    requires Partly(h, s, records, a, 0) && IsNewAddr(r, records) && b < NEW_BUCKET_COUNT
    requires e.service == r.service && e.nRefCount == 1 && !e.fInTried && e.nRandomPos == a
    ensures Partly(h, s.(mapInfo := s.mapInfo[a := e], mapAddr := s.mapAddr[r.service.ip := a],
                         vRandom := s.vRandom + [a], vvNew := Inserted(s.vvNew, b, a)), records + [r], a + 1, 0)
  {
    NotListed(s.mapAddr, records, r, a);
    NextId(s.mapInfo, a, e);
    assert |s.vvNew| == NEW_BUCKET_COUNT;
    hide FirstIds, AddrIndex, RandomIndex, AddrsFrom, RefCounts, BucketsKnown, TriedBuckets, NewIds, TriedIds;
    hide Inserted, IsNewAddr;
    CreateKeepsIndexes(s.mapInfo, s.mapAddr, s.vRandom, a, e);
    NewCounted(s.mapInfo, s.vvNew, b, a, e);
    TriedIgnoresNew(h, s.mapInfo, s.vvTried, a, e);
    NewIdsGain(s.mapInfo, a, e);
  }

  /** Reading one more tried record that finds room. */
  lemma PartlyTried(h: Hashes, s: Tables, records: seq<Record>, a: nat, c: nat, r: Record, e: AddrInfo, t: Tables)
    requires Partly(h, s, records, a, c) && IsNewAddr(r, records)
    requires e.service == r.service && e.nRefCount == 0 && e.fInTried && e.nRandomPos == a + c
    requires |s.vvTried[h.TriedBucket(e)]| < TRIED_BUCKET_SIZE
    requires t.mapInfo == s.mapInfo[a + c := e] && t.mapAddr == s.mapAddr[r.service.ip := a + c]
    requires t.vRandom == s.vRandom + [a + c] && t.vvNew == s.vvNew
    requires var k := h.TriedBucket(e); t.vvTried == s.vvTried[k := s.vvTried[k] + [a + c]]
    ensures Partly(h, t, records + [r], a, c + 1)
  {
    NotListed(s.mapAddr, records, r, a + c);
    NextId(s.mapInfo, a + c, e);
    hide FirstIds, AddrIndex, RandomIndex, AddrsFrom, RefCounts, BucketsKnown, TriedBuckets, NewIds, TriedIds;
    hide IsNewAddr;
    CreateKeepsIndexes(s.mapInfo, s.mapAddr, s.vRandom, a + c, e);
    TriedCounted(s.mapInfo, s.vvNew, a + c, e);
    TriedGains(h, s.mapInfo, s.vvTried, a + c, e);
    TriedIdsGain(s.mapInfo, a + c, e);
  }

  lemma PartlySkip(h: Hashes, s: Tables, records: seq<Record>, a: nat, c: nat, r: Record, t: Tables)
    requires Partly(h, s, records, a, c) && IsNewAddr(r, records)
    requires t.mapInfo == s.mapInfo && t.mapAddr == s.mapAddr && t.vRandom == s.vRandom
    requires t.vvNew == s.vvNew && t.vvTried == s.vvTried
    ensures Partly(h, t, records + [r], a, c)
  {
    NotListed(s.mapAddr, records, r, 0);
    hide FirstIds, AddrIndex, RandomIndex, AddrsFrom, RefCounts, BucketsKnown, TriedBuckets, NewIds, TriedIds;
    hide IsNewAddr;
  }

  lemma NothingRead(h: Hashes, s: Tables)
    requires s.mapInfo == map[] && s.mapAddr == map[] && s.vRandom == []
    requires s.vvTried == EMPTY.vvTried && s.vvNew == EMPTY.vvNew
    ensures Partly(h, s, [], 0, 0)
  {
    assert TriedIds(map[]) == {} && NewIds(map[]) == {};
  }

  /** Reading the new records puts each into the bucket its own source gives. */
  lemma {:induction false} NewConverted(h: Hashes, file: File, n: nat)
    requires SoundFile(file) && |file.buckets| != NEW_BUCKET_COUNT && n <= |file.newInfos|
    ensures var t := LoadNew(h, file, n);
      && Partly(h, t, file.newInfos[..n], n, 0) && t.vvTried == EMPTY.vvTried
      && forall b | 0 <= b < NEW_BUCKET_COUNT ::
           t.vvNew[b] == FirstInBucket(h, file, b, n)
    decreases n
  {
    hide Partly, FromRecord, IsNewAddr, Hashes.NewBucket, NewBucketOf, SoundFile;
    if n == 0 {
      NothingRead(h, LoadNew(h, file, 0));
    } else {
      NewConverted(h, file, n - 1);
      var s, r := LoadNew(h, file, n - 1), file.newInfos[n - 1];
      PartlySize(h, s, file.newInfos[..n - 1], n - 1, 0);
      var e := FromRecord(r).(nRandomPos := n - 1, nRefCount := 1);
      RecordFacts(h, r, n - 1);
      DistinctAddr(file, n - 1);
      assert (file.newInfos + file.triedInfos)[..n - 1] == file.newInfos[..n - 1];
      PartlyNew(h, s, file.newInfos[..n - 1], n - 1, r, NewBucketOf(h, r), e);
      assert file.newInfos[..n] == file.newInfos[..n - 1] + [r];
      LoadNewStep(h, file, n);
      FirstGrows(h, file, n);
    }
  }

  lemma FirstGrows(h: Hashes, file: File, n: nat)
    requires 0 < n <= |file.newInfos|
    ensures forall b: nat :: (FirstInBucket(h, file, b, n) ==
      FirstInBucket(h, file, b, n - 1) + if NewBucketOf(h, file.newInfos[n - 1]) == b then {n - 1} else {})
  {
    hide NewBucketOf;
  }

  lemma LoadNewStep(h: Hashes, file: File, n: nat)
    requires 0 < n <= |file.newInfos| && |file.buckets| != NEW_BUCKET_COUNT
    requires |LoadNew(h, file, n - 1).vRandom| == n - 1
    ensures var s, r := LoadNew(h, file, n - 1), file.newInfos[n - 1];
      var e := FromRecord(r).(nRandomPos := n - 1, nRefCount := 1);
      LoadNew(h, file, n) == s.(mapInfo := s.mapInfo[n - 1 := e], mapAddr := s.mapAddr[r.service.ip := n - 1],
        vRandom := s.vRandom + [n - 1], vvNew := Inserted(s.vvNew, NewBucketOf(h, r), n - 1))
  {
    var s, r := LoadNew(h, file, n - 1), file.newInfos[n - 1];
    var e := FromRecord(r).(nRandomPos := n - 1, nRefCount := 1);
    assert s.mapInfo[n - 1 := FromRecord(r).(nRandomPos := n - 1)][n - 1 := e] == s.mapInfo[n - 1 := e];
    assert h.NewBucket(FromRecord(r).(nRandomPos := n - 1), r.source) == NewBucketOf(h, r);
  }

  lemma PartlySize(h: Hashes, s: Tables, records: seq<Record>, a: nat, c: nat)
    requires Partly(h, s, records, a, c)
    ensures |s.vRandom| == a + c && |s.vvTried| == TRIED_BUCKET_COUNT && |s.vvNew| == NEW_BUCKET_COUNT
  {
  }

  lemma RecordFacts(h: Hashes, r: Record, pos: int)
    ensures var e := FromRecord(r);
      && e.service == r.service && e.source == r.source && e.nRefCount == 0 && !e.fInTried
      && h.NewBucket(e.(nRandomPos := pos), e.source) == NewBucketOf(h, r)
      && h.TriedBucket(e.(nRandomPos := pos, fInTried := true)) == TriedBucketOf(h, r)
  {
  }

  lemma DistinctAddr(file: File, n: nat)
    requires SoundFile(file) && n < |file.newInfos| + |file.triedInfos|
    ensures IsNewAddr((file.newInfos + file.triedInfos)[n], (file.newInfos + file.triedInfos)[..n])
  {
  }

  /** How full the tried buckets are. */
  lemma {:induction false} TriedSizes(h: Hashes, file: File, n: nat, k: nat)
    requires n <= |file.triedInfos| && k < TRIED_BUCKET_COUNT
    ensures |LoadTried(h, file, n).vvTried[k]| == MinNat(TRIED_BUCKET_SIZE, TriedInBucket(h, file, k, n))
    decreases n
  {
    hide FromRecord, LoadNew, Hashes.TriedBucket;
    if n == 0 {
      NoneTriedYet(h, file, |file.newInfos|);
    } else {
      TriedSizes(h, file, n - 1, k);
    }
  }

  lemma {:induction false} NoneTriedYet(h: Hashes, file: File, n: nat)
    requires n <= |file.newInfos|
    ensures LoadNew(h, file, n).vvTried == EMPTY.vvTried
    decreases n
  {
    hide FromRecord, Hashes.NewBucket, Inserted;
    if n > 0 {
      NoneTriedYet(h, file, n - 1);
    }
  }

  /** What is known after `n` tried records. */
  ghost predicate TriedState(h: Hashes, file: File, n: nat)
    requires n <= |file.triedInfos|
  {
    var t, a := LoadTried(h, file, n), |file.newInfos|;
    var c := n - Lost(h, file, n);
    && Partly(h, t, (file.newInfos + file.triedInfos)[..a + n], a, c)
    && t.nIdCount == a + c && t.nNew == a && t.nTried == |file.triedInfos| - Lost(h, file, n)
    && t.vvNew == LoadNew(h, file, a).vvNew
  }

  /** Tried records go to the bucket of their address while there is room, and are lost otherwise. */
  lemma {:induction false} TriedConverted(h: Hashes, file: File, n: nat)
    requires SoundFile(file) && |file.buckets| != NEW_BUCKET_COUNT && n <= |file.triedInfos|
    ensures TriedState(h, file, n)
    decreases n
  {
    if n == 0 {
      hide Partly, SoundFile, LoadNew;
      var all, a := file.newInfos + file.triedInfos, |file.newInfos|;
      NewConverted(h, file, a);
      assert all[..a] == file.newInfos == file.newInfos[..a];
      PartlyIgnores(h, LoadNew(h, file, a), all[..a], a, 0);
    } else {
      hide *;
      TriedConverted(h, file, n - 1);
      TriedStep(h, file, n);
    }
  }

  lemma TriedStep(h: Hashes, file: File, n: nat)
    requires SoundFile(file) && 0 < n <= |file.triedInfos| && TriedState(h, file, n - 1)
    ensures TriedState(h, file, n)
  {
    hide LoadTried, LoadNew, Lost, Partly, IsNewAddr, SoundFile, FromRecord, Hashes.TriedBucket, TriedBucketOf;
    hide TriedInBucket;
    var all, a := file.newInfos + file.triedInfos, |file.newInfos|;
    var s, t, r := LoadTried(h, file, n - 1), LoadTried(h, file, n), file.triedInfos[n - 1];
    var c := n - 1 - Lost(h, file, n - 1);
    var e := FromRecord(r).(nRandomPos := a + c, fInTried := true);
    TriedSizes(h, file, n - 1, TriedBucketOf(h, r));
    PartlySize(h, s, all[..a + n - 1], a, c);
    RecordFacts(h, r, a + c);
    LoadTriedStep(h, file, n, a + c);
    DistinctAddr(file, a + n - 1);
    assert r == all[a + n - 1] && all[..a + n] == all[..a + n - 1] + [r];
    if |s.vvTried[TriedBucketOf(h, r)]| < TRIED_BUCKET_SIZE {
      PartlyTried(h, s, all[..a + n - 1], a, c, r, e, t);
    } else {
      PartlySkip(h, s, all[..a + n - 1], a, c, r, t);
    }
  }

  lemma LoadTriedStep(h: Hashes, file: File, n: nat, id: int)
    requires 0 < n <= |file.triedInfos|
    requires LoadTried(h, file, n - 1).nIdCount == id == |LoadTried(h, file, n - 1).vRandom|
    ensures var s, r := LoadTried(h, file, n - 1), file.triedInfos[n - 1];
      var k, e := TriedBucketOf(h, r), FromRecord(r).(nRandomPos := id, fInTried := true);
      && LoadTried(h, file, n) ==
           (if |s.vvTried[k]| < TRIED_BUCKET_SIZE then
              s.(mapInfo := s.mapInfo[id := e], mapAddr := s.mapAddr[r.service.ip := id], vRandom := s.vRandom + [id],
                 vvTried := s.vvTried[k := s.vvTried[k] + [id]], nIdCount := id + 1)
            else s.(nTried := s.nTried - 1))
      && Lost(h, file, n) == Lost(h, file, n - 1) +
           if TriedInBucket(h, file, k, n - 1) >= TRIED_BUCKET_SIZE then 1 else 0
  {
  }

  /** New record `i` is entry `i`. */
  predicate NewLoaded(file: File, info: Infos, n: nat)
    requires n <= |file.newInfos|
  {
    forall i | 0 <= i < n ::
      i in info && info[i] == FromRecord(file.newInfos[i]).(nRandomPos := i, nRefCount := 1)
  }

  /** Entry `a + j` is the tried record number `kept[j]`. */
  predicate TriedLoaded(file: File, info: Infos, kept: seq<nat>)
    requires forall j | 0 <= j < |kept| :: kept[j] < |file.triedInfos|
  {
    forall j | 0 <= j < |kept| :: TriedEntry(file, info, |file.newInfos| + j, kept[j])
  }

  predicate TriedEntry(file: File, info: Infos, id: int, i: nat)
    requires i < |file.triedInfos|
  {
    id in info && info[id] == FromRecord(file.triedInfos[i]).(nRandomPos := id, fInTried := true)
  }

  lemma {:induction false} NewRecordsLoaded(h: Hashes, file: File, n: nat)
    requires SoundFile(file) && |file.buckets| != NEW_BUCKET_COUNT && n <= |file.newInfos|
    ensures NewLoaded(file, LoadNew(h, file, n).mapInfo, n)
    decreases n
  {
    hide LoadNew, Partly, SoundFile, FromRecord, Inserted, NewBucketOf;
    if n > 0 {
      NewRecordsLoaded(h, file, n - 1);
      NewConverted(h, file, n - 1);
      PartlySize(h, LoadNew(h, file, n - 1), file.newInfos[..n - 1], n - 1, 0);
      LoadNewStep(h, file, n);
    }
  }

  lemma OneMoreLoaded(file: File, info: Infos, kept: seq<nat>, i: nat, e: AddrInfo)
    requires i < |file.triedInfos| && forall j | 0 <= j < |kept| :: kept[j] < |file.triedInfos|
    requires NewLoaded(file, info, |file.newInfos|) && TriedLoaded(file, info, kept)
    requires e == FromRecord(file.triedInfos[i]).(nRandomPos := |file.newInfos| + |kept|, fInTried := true)
    ensures var more := info[|file.newInfos| + |kept| := e];
      NewLoaded(file, more, |file.newInfos|) && TriedLoaded(file, more, kept + [i])
  {
    hide FromRecord;
    var a, all := |file.newInfos|, kept + [i];
    var more := info[a + |kept| := e];
    forall j | 0 <= j < |all|
      ensures TriedEntry(file, more, a + j, all[j])
    {
      assert j < |kept| ==> TriedEntry(file, info, a + j, kept[j]);
    }
  }

  lemma EntriesSoFar(h: Hashes, file: File, n: nat)
    requires SoundFile(file) && |file.buckets| != NEW_BUCKET_COUNT && n <= |file.triedInfos|
    ensures var t := LoadTried(h, file, n);
      t.nIdCount == |t.vRandom| == |file.newInfos| + n - Lost(h, file, n)
  {
    hide LoadTried, Partly, SoundFile, Lost;
    var a := |file.newInfos|;
    TriedConverted(h, file, n);
    PartlySize(h, LoadTried(h, file, n), (file.newInfos + file.triedInfos)[..a + n], a, n - Lost(h, file, n));
  }

  lemma KeptStep(h: Hashes, file: File, n: nat)
    requires n < |file.triedInfos|
    ensures Kept(h, file, n + 1) == if FindsRoom(h, file, n) then Kept(h, file, n) + [n] else Kept(h, file, n)
  {
    hide FindsRoom;
  }

  lemma RoomLeft(h: Hashes, file: File, n: nat)
    requires n < |file.triedInfos|
    ensures var k := TriedBucketOf(h, file.triedInfos[n]);
      FindsRoom(h, file, n) <==> |LoadTried(h, file, n).vvTried[k]| < TRIED_BUCKET_SIZE
  {
    hide LoadTried, TriedInBucket, TriedBucketOf;
    TriedSizes(h, file, n, TriedBucketOf(h, file.triedInfos[n]));
  }

  lemma EntriesStep(h: Hashes, file: File, n: nat)
    requires SoundFile(file) && |file.buckets| != NEW_BUCKET_COUNT && 0 < n <= |file.triedInfos|
    ensures var info, id := LoadTried(h, file, n - 1).mapInfo, |file.newInfos| + |Kept(h, file, n - 1)|;
      var e := FromRecord(file.triedInfos[n - 1]).(nRandomPos := id, fInTried := true);
      LoadTried(h, file, n).mapInfo == if FindsRoom(h, file, n - 1) then info[id := e] else info
  {
    hide *;
    EntriesSoFar(h, file, n - 1);
    RoomLeft(h, file, n - 1);
    LoadTriedStep(h, file, n, LoadTried(h, file, n - 1).nIdCount);
  }

  /** Every record that finds room becomes the next entry; the others leave the entries as they were. */
  lemma {:induction false} RecordsLoaded(h: Hashes, file: File, n: nat)
    requires SoundFile(file) && |file.buckets| != NEW_BUCKET_COUNT && n <= |file.triedInfos|
    ensures var info := LoadTried(h, file, n).mapInfo;
      NewLoaded(file, info, |file.newInfos|) && TriedLoaded(file, info, Kept(h, file, n))
    decreases n
  {
    hide LoadTried, LoadNew, Partly, SoundFile, FromRecord, Lost, TriedInBucket, TriedBucketOf, Kept, FindsRoom;
    hide NewLoaded, TriedLoaded;
    var a := |file.newInfos|;
    if n == 0 {
      NewRecordsLoaded(h, file, a);
      NothingTried(h, file);
    } else {
      RecordsLoaded(h, file, n - 1);
      var info, kept, r := LoadTried(h, file, n - 1).mapInfo, Kept(h, file, n - 1), file.triedInfos[n - 1];
      EntriesStep(h, file, n);
      KeptStep(h, file, n - 1);
      OneMoreLoaded(file, info, kept, n - 1, FromRecord(r).(nRandomPos := a + |kept|, fInTried := true));
    }
  }

  lemma NothingTried(h: Hashes, file: File)
    ensures LoadTried(h, file, 0).mapInfo == LoadNew(h, file, |file.newInfos|).mapInfo
    ensures TriedLoaded(file, LoadTried(h, file, 0).mapInfo, Kept(h, file, 0))
  {
    hide LoadNew;
  }

  lemma PartlyIgnores(h: Hashes, s: Tables, records: seq<Record>, a: nat, c: nat)
    requires Partly(h, s, records, a, c)
    ensures forall n :: Partly(h, s.(nIdCount := n), records, a, c)
  {
  }

  /** The bucket entries of the file are read and ignored. */
  lemma {:induction false} BucketIgnored(file: File, s: Tables, b: nat, n: nat)
    requires |file.buckets| != NEW_BUCKET_COUNT && b < |s.vvNew| && b < |file.buckets| && n <= |file.buckets[b]|
    requires forall i | 0 <= i < n :: file.buckets[b][i] in s.mapInfo
    ensures LoadBucket(file, s, b, n) == s
    decreases n
  {
    if n > 0 {
      BucketIgnored(file, s, b, n - 1);
      var x := file.buckets[b][n - 1];
      assert s.mapInfo[x := s.mapInfo[x]] == s.mapInfo;
    }
  }

  lemma {:induction false} BucketsIgnored(file: File, s: Tables, b: nat)
    requires |file.buckets| != NEW_BUCKET_COUNT && b <= |file.buckets| <= |s.vvNew|
    requires forall c, i | 0 <= c < |file.buckets| && 0 <= i < |file.buckets[c]| :: file.buckets[c][i] in s.mapInfo
    ensures LoadBuckets(file, s, b) == s
    decreases b
  {
    hide LoadBucket;
    if b > 0 {
      BucketsIgnored(file, s, b - 1);
      BucketIgnored(file, s, b - 1, |file.buckets[b - 1]|);
    }
  }

  lemma OnlySizes(h: Hashes, t: Tables)
    requires AddrIndex(t.mapInfo, t.mapAddr) && RandomIndex(t.mapInfo, t.vRandom) && IdsBelow(t.mapInfo, t.nIdCount)
    requires Counts(t.mapInfo, t.vRandom, t.nTried, t.nNew) && RefCounts(t.mapInfo, t.vvNew, NONE)
    requires BucketsKnown(t.mapInfo, t.vvNew) && TriedBuckets(h, t.mapInfo, t.vvTried) && t.nIdCount >= 0
    ensures Indexed(h, t, NONE) <==> forall b | 0 <= b < NEW_BUCKET_COUNT :: |t.vvNew[b]| <= NEW_BUCKET_SIZE
  {
    hide AddrIndex, RandomIndex, RefCounts, Counts, TriedBuckets;
  }

  /** A sound file with another number of buckets loads with every index in order; the one thing that
      can go wrong is that a new bucket gets too full.  Entry i is new record i, and the tried records
      follow in the order of the file: of those of one bucket the first 64 survive, and no others. */
  lemma ConvertedKeeps(h: Hashes, file: File)
    requires SoundFile(file) && |file.buckets| < NEW_BUCKET_COUNT
    ensures var t := Load(h, file);
      && AddrIndex(t.mapInfo, t.mapAddr) && RandomIndex(t.mapInfo, t.vRandom) && IdsBelow(t.mapInfo, t.nIdCount)
      && Counts(t.mapInfo, t.vRandom, t.nTried, t.nNew) && RefCounts(t.mapInfo, t.vvNew, NONE)
      && BucketsKnown(t.mapInfo, t.vvNew) && TriedBuckets(h, t.mapInfo, t.vvTried)
      && (Indexed(h, t, NONE) <==>
            forall b | 0 <= b < NEW_BUCKET_COUNT :: |NewInBucket(h, file, b)| <= NEW_BUCKET_SIZE)
      && t.nNew == |file.newInfos|
      && t.nTried == |file.triedInfos| - Lost(h, file, |file.triedInfos|)
      && |t.mapInfo| == t.nNew + t.nTried
      && NewLoaded(file, t.mapInfo, |file.newInfos|)
      && TriedLoaded(file, t.mapInfo, Kept(h, file, |file.triedInfos|))
      && forall k | 0 <= k < TRIED_BUCKET_COUNT ::
           |t.vvTried[k]| == MinNat(TRIED_BUCKET_SIZE, TriedInBucket(h, file, k, |file.triedInfos|))
  {
    hide LoadNew, LoadTried, LoadBuckets, TriedInBucket, Lost, MinNat, NewBucketOf, NewLoaded, TriedLoaded;
    hide AddrIndex, RandomIndex, RefCounts, TriedBuckets, TriedIds, NewIds, AddrsFrom, Inserted;
    var a, m := |file.newInfos|, |file.triedInfos|;
    var t := LoadTried(h, file, m);
    TriedConverted(h, file, m);
    NewConverted(h, file, a);
    RecordsLoaded(h, file, m);
    FirstIdsSize(t.mapInfo, a + |Kept(h, file, m)|);
    forall c, i | 0 <= c < |file.buckets| && 0 <= i < |file.buckets[c]|
      ensures file.buckets[c][i] in t.mapInfo
    {
      assert 0 <= file.buckets[c][i] < a;
    }
    BucketsIgnored(file, t, |file.buckets|);
    assert Load(h, file) == t;
    forall b | 0 <= b < NEW_BUCKET_COUNT
      ensures t.vvNew[b] == NewInBucket(h, file, b)
    {
    }
    OnlySizes(h, t);
    forall k | 0 <= k < TRIED_BUCKET_COUNT
      ensures |t.vvTried[k]| == MinNat(TRIED_BUCKET_SIZE, TriedInBucket(h, file, k, m))
    {
      TriedSizes(h, file, m, k);
    }
  }
}
