/** The address manager: five indexes over the known peer addresses, changed in place together. */
module AddrMans {
  const TRIED_BUCKET_COUNT: nat := 64
  const TRIED_BUCKET_SIZE: nat := 64
  const NEW_BUCKET_COUNT: nat := 256
  const NEW_BUCKET_SIZE: nat := 64
  const NEW_BUCKETS_PER_ADDRESS: nat := 4
  const TRIED_BUCKETS_PER_GROUP: nat := 4
  const NEW_BUCKETS_PER_SOURCE_GROUP: nat := 32
  const TRIED_ENTRIES_INSPECT_ON_EVICT: nat := 4
  const HORIZON_DAYS: nat := 30
  const RETRIES: nat := 3
  const MAX_FAILURES: nat := 10
  const MIN_FAIL_DAYS: nat := 7
  const GETADDR_MAX_PCT: nat := 23
  const GETADDR_MAX: nat := 2500

  type NetAddr = nat

  datatype Service = Service(ip: NetAddr, port: nat)

  /** The set bits of a service mask. */
  type Services = set<nat>

  datatype Address = Address(service: Service, nServices: Services, nTime: int)

  datatype AddrInfo = AddrInfo(
    service: Service, nServices: Services, nTime: int, source: NetAddr,
    nLastSuccess: int, nLastTry: int, nAttempts: int,
    nRefCount: int, fInTried: bool, nRandomPos: int)
  {
    predicate IsTerrible(nNow: int) {
      if nLastTry != 0 && nLastTry >= nNow - 60 then false
      else if nTime > nNow + 10 * 60 then true
      else if nTime == 0 || nNow - nTime > HORIZON_DAYS * 86400 then true
      else if nLastSuccess == 0 && nAttempts >= RETRIES then true
      else nNow - nLastSuccess > MIN_FAIL_DAYS * 86400 && nAttempts >= MAX_FAILURES
    }
  }

  function NewInfo(addr: Address, source: NetAddr): AddrInfo {
    AddrInfo(addr.service, addr.nServices, addr.nTime, source, 0, 0, 0, 0, false, -1)
  }

  /** The network group of an address, and the keyed hashes that choose buckets: of a service, of a
      group and a number, of two groups, and of a source group and a number. */
  datatype Hashes = Hashes(group: NetAddr -> nat, tried1: Service -> nat, tried2: (nat, nat) -> nat,
                           new1: (nat, nat) -> nat, new2: (nat, nat) -> nat)
  {
    function TriedBucket(e: AddrInfo): (k: nat)
      ensures k < TRIED_BUCKET_COUNT
    {
      tried2(group(e.service.ip), tried1(e.service) % TRIED_BUCKETS_PER_GROUP) % TRIED_BUCKET_COUNT
    }

    function NewBucket(e: AddrInfo, src: NetAddr): (k: nat)
      ensures k < NEW_BUCKET_COUNT
    {
      new2(group(src), new1(group(e.service.ip), group(src)) % NEW_BUCKETS_PER_SOURCE_GROUP) % NEW_BUCKET_COUNT
    }
  }

  type Infos = map<int, AddrInfo>

  /** The fields of the address manager. */
  datatype Tables = Tables(
    nIdCount: int, mapInfo: Infos, mapAddr: map<NetAddr, int>, vRandom: seq<int>,
    nTried: int, vvTried: seq<seq<int>>, nNew: int, vvNew: seq<set<int>>)

  /** No entries, whatever the counters say. */
  function Cleared(nTried: nat, nNew: nat): Tables {
    Tables(0, map[], map[], [], nTried, seq(TRIED_BUCKET_COUNT, _ => []), nNew, seq(NEW_BUCKET_COUNT, _ => {}))
  }

  const EMPTY: Tables := Cleared(0, 0)

  // ---------------------------------------------------------------- the consistency check

  /** Ids and addresses are in one-to-one correspondence. */
  predicate AddrIndex(info: Infos, mapAddr: map<NetAddr, int>) {
    && (forall id | id in info :: info[id].service.ip in mapAddr && mapAddr[info[id].service.ip] == id)
    && (forall ip | ip in mapAddr :: mapAddr[ip] in info && info[mapAddr[ip]].service.ip == ip)
  }

  /** vRandom lists every id once, and every entry knows its position in it. */
  predicate RandomIndex(info: Infos, vRandom: seq<int>) {
    && (forall id | id in info :: 0 <= info[id].nRandomPos < |vRandom| && vRandom[info[id].nRandomPos] == id)
    && (forall p | 0 <= p < |vRandom| :: vRandom[p] in info && info[vRandom[p]].nRandomPos == p)
  }

  predicate IdsBelow(info: Infos, nIdCount: int) {
    forall id | id in info :: 0 <= id < nIdCount
  }

  predicate PlausibleTimes(e: AddrInfo) {
    e.nLastTry >= 0 && e.nLastSuccess >= 0 && (e.fInTried ==> e.nLastSuccess != 0)
  }

  predicate TimesPlausible(info: Infos) {
    forall id | id in info :: PlausibleTimes(info[id])
  }

  function TriedIds(info: Infos): set<int> {
    set id | id in info && info[id].fInTried
  }

  function NewIds(info: Infos): set<int> {
    set id | id in info && !info[id].fInTried
  }

  predicate Counts(info: Infos, vRandom: seq<int>, nTried: int, nNew: int) {
    nTried == |TriedIds(info)| && nNew == |NewIds(info)| && |vRandom| == nTried + nNew
  }

  /** The new buckets that hold an id. */
  function Holders(vvNew: seq<set<int>>, id: int): set<nat> {
    set b: nat | b < |vvNew| && id in vvNew[b]
  }

  /** Every entry outside the tried table is in 1 to 4 new buckets, and counts them. While an entry
      is being linked into one more bucket, its count is one ahead: that is the pending one. */
  predicate RefCounts(info: Infos, vvNew: seq<set<int>>, pending: int) {
    forall id | id in info ::
      && info[id].nRefCount == |Holders(vvNew, id)| + (if id == pending then 1 else 0)
      && info[id].nRefCount <= NEW_BUCKETS_PER_ADDRESS
      && (info[id].fInTried <==> info[id].nRefCount == 0)
  }

  predicate NewBuckets(info: Infos, vvNew: seq<set<int>>) {
    && |vvNew| == NEW_BUCKET_COUNT
    && (forall b | 0 <= b < |vvNew| :: |vvNew[b]| <= NEW_BUCKET_SIZE)
    && (forall b, id | 0 <= b < |vvNew| && id in vvNew[b] :: id in info)
  }

  /** Every tried entry is in exactly one tried bucket, once, and it is the bucket that hashing its
      address gives. */
  predicate TriedBuckets(h: Hashes, info: Infos, vvTried: seq<seq<int>>) {
    && |vvTried| == TRIED_BUCKET_COUNT
    && (forall k | 0 <= k < |vvTried| :: |vvTried[k]| <= TRIED_BUCKET_SIZE)
    && (forall k, p | 0 <= k < |vvTried| && 0 <= p < |vvTried[k]| ::
          vvTried[k][p] in info && info[vvTried[k][p]].fInTried && h.TriedBucket(info[vvTried[k][p]]) == k)
    && (forall k, p, q | 0 <= k < |vvTried| && 0 <= p < q < |vvTried[k]| :: vvTried[k][p] != vvTried[k][q])
    && (forall id | id in info && info[id].fInTried :: id in vvTried[h.TriedBucket(info[id])])
  }

  lemma TimesAt(info: Infos, id: int)
    requires TimesPlausible(info) && id in info
    ensures PlausibleTimes(info[id])
  {
  }

  /** All five indexes and the counters agree. */
  predicate Indexed(h: Hashes, s: Tables, pending: int) {
    && AddrIndex(s.mapInfo, s.mapAddr)
    && RandomIndex(s.mapInfo, s.vRandom)
    && IdsBelow(s.mapInfo, s.nIdCount)
    && Counts(s.mapInfo, s.vRandom, s.nTried, s.nNew)
    && RefCounts(s.mapInfo, s.vvNew, pending)
    && NewBuckets(s.mapInfo, s.vvNew)
    && TriedBuckets(h, s.mapInfo, s.vvTried)
    && s.nIdCount >= 0
  }

  /** Everything the consistency check asks for. */
  predicate Consistent(h: Hashes, s: Tables, pending: int) {
    Indexed(h, s, pending) && TimesPlausible(s.mapInfo)
  }

  const NONE: int := -1

  lemma EmptyIsConsistent(h: Hashes)
    ensures Consistent(h, EMPTY, NONE)
  {
    assert TriedIds(map[]) == {} && NewIds(map[]) == {};
  }

  // ---------------------------------------------------------------- changing one entry

  /** The same entry, except perhaps for its place in vRandom. */
  predicate Alike(e: AddrInfo, f: AddrInfo) {
    && e.service == f.service && e.nServices == f.nServices && e.nTime == f.nTime && e.source == f.source
    && e.nLastSuccess == f.nLastSuccess && e.nLastTry == f.nLastTry && e.nAttempts == f.nAttempts
    && e.nRefCount == f.nRefCount && e.fInTried == f.fInTried
  }

  /** Same place in every index. */
  predicate SamePlaces(e: AddrInfo, f: AddrInfo) {
    e.service == f.service && e.nRefCount == f.nRefCount && e.fInTried == f.fInTried && e.nRandomPos == f.nRandomPos
  }

  lemma UpdateKeeps(h: Hashes, s: Tables, pending: int, id: int, e: AddrInfo)
    requires Indexed(h, s, pending) && id in s.mapInfo
    requires SamePlaces(e, s.mapInfo[id])
    ensures Indexed(h, s.(mapInfo := s.mapInfo[id := e]), pending)
    ensures TimesPlausible(s.mapInfo) ==> (TimesPlausible(s.mapInfo[id := e]) <==> PlausibleTimes(e))
  {
    var info := s.mapInfo[id := e];
    assert TriedIds(info) == TriedIds(s.mapInfo) && NewIds(info) == NewIds(s.mapInfo);
  }

  /** Counting one more reference makes an entry pending. */
  lemma IncrementPends(h: Hashes, s: Tables, id: int)
    requires Indexed(h, s, NONE) && id in s.mapInfo
    requires !s.mapInfo[id].fInTried && s.mapInfo[id].nRefCount < NEW_BUCKETS_PER_ADDRESS
    ensures Indexed(h, s.(mapInfo := s.mapInfo[id := s.mapInfo[id].(nRefCount := s.mapInfo[id].nRefCount + 1)]), id)
  {
    var info := s.mapInfo[id := s.mapInfo[id].(nRefCount := s.mapInfo[id].nRefCount + 1)];
    assert TriedIds(info) == TriedIds(s.mapInfo) && NewIds(info) == NewIds(s.mapInfo);
  }

  // ---------------------------------------------------------------- Create

  function Created(s: Tables, e: AddrInfo): Tables {
    s.(nIdCount := s.nIdCount + 1,
       mapInfo := s.mapInfo[s.nIdCount := e.(nRandomPos := |s.vRandom|)],
       mapAddr := s.mapAddr[e.service.ip := s.nIdCount],
       vRandom := s.vRandom + [s.nIdCount])
  }

  lemma NewIdsGain(info: Infos, id: int, e: AddrInfo)
    requires id !in info && !e.fInTried
    ensures |NewIds(info[id := e])| == |NewIds(info)| + 1 && TriedIds(info[id := e]) == TriedIds(info)
  {
    assert NewIds(info[id := e]) == NewIds(info) + {id};
  }

  lemma NotHeld(info: Infos, vvNew: seq<set<int>>, id: int)
    requires NewBuckets(info, vvNew) && id !in info
    ensures Holders(vvNew, id) == {}
  {
  }

  /** A created entry with one reference counted is pending. */
  lemma CreateKeeps(h: Hashes, s: Tables, e: AddrInfo)
    requires Indexed(h, s, NONE) && e.service.ip !in s.mapAddr
    requires e.nRefCount == 1 && !e.fInTried
    ensures Indexed(h, Created(s, e).(nNew := s.nNew + 1), s.nIdCount)
    ensures TimesPlausible(s.mapInfo) && PlausibleTimes(e) ==> TimesPlausible(Created(s, e).mapInfo)
    ensures Holders(s.vvNew, s.nIdCount) == {}
  {
    var id := s.nIdCount;
    var e' := e.(nRandomPos := |s.vRandom|);
    assert id !in s.mapInfo;
    NotHeld(s.mapInfo, s.vvNew, id);
    hide AddrIndex, RandomIndex, NewBuckets, TriedBuckets, RefCounts, TriedIds, NewIds, Holders;
    NewIdsGain(s.mapInfo, id, e');
    CreateKeepsIndexes(s.mapInfo, s.mapAddr, s.vRandom, id, e');
    CreateKeepsBuckets(h, s.mapInfo, s.vvNew, s.vvTried, id, e');
  }

  lemma CreateKeepsIndexes(info: Infos, mapAddr: map<NetAddr, int>, vRandom: seq<int>, id: int, e: AddrInfo)
    requires AddrIndex(info, mapAddr) && RandomIndex(info, vRandom)
    requires id !in info && e.service.ip !in mapAddr && e.nRandomPos == |vRandom|
    ensures AddrIndex(info[id := e], mapAddr[e.service.ip := id]) && RandomIndex(info[id := e], vRandom + [id])
  {
  }

  lemma CreateKeepsBuckets(h: Hashes, info: Infos, vvNew: seq<set<int>>, vvTried: seq<seq<int>>, id: int, e: AddrInfo)
    requires RefCounts(info, vvNew, NONE) && NewBuckets(info, vvNew) && TriedBuckets(h, info, vvTried)
    requires id !in info && id != NONE && NONE !in info && Holders(vvNew, id) == {} && e.nRefCount == 1 && !e.fInTried
    ensures RefCounts(info[id := e], vvNew, id) && NewBuckets(info[id := e], vvNew)
    ensures TriedBuckets(h, info[id := e], vvTried)
  {
    hide Holders;
  }

  // ---------------------------------------------------------------- SwapRandom

  function Moved(info: Infos, id: int, pos: int): Infos
    requires id in info
  {
    info[id := info[id].(nRandomPos := pos)]
  }

  function Swapped(s: Tables, p: nat, q: nat): Tables
    requires p < |s.vRandom| && q < |s.vRandom| && s.vRandom[p] in s.mapInfo && s.vRandom[q] in s.mapInfo
  {
    if p == q then s
    else
      s.(mapInfo := Moved(Moved(s.mapInfo, s.vRandom[p], q), s.vRandom[q], p),
         vRandom := s.vRandom[p := s.vRandom[q]][q := s.vRandom[p]])
  }

  predicate SameFacts(info: Infos, info': Infos) {
    && info'.Keys == info.Keys
    && (forall id | id in info :: Alike(info'[id], info[id]))
  }

  lemma FactsCountSame(info: Infos, info': Infos)
    requires SameFacts(info, info')
    ensures TriedIds(info') == TriedIds(info) && NewIds(info') == NewIds(info)
  {
    assert forall id :: id in TriedIds(info') <==> id in TriedIds(info);
    assert forall id :: id in NewIds(info') <==> id in NewIds(info);
  }

  /** No index but vRandom depends on the entries' places in it. */
  lemma FactsDecide(h: Hashes, s: Tables, t: Tables, pending: int)
    requires SameFacts(s.mapInfo, t.mapInfo) && t == s.(mapInfo := t.mapInfo, vRandom := t.vRandom)
    requires Indexed(h, s, pending) && |s.vRandom| == |t.vRandom| && RandomIndex(t.mapInfo, t.vRandom)
    ensures Indexed(h, t, pending)
  {
    hide TriedIds, NewIds, Holders, RandomIndex, TriedBuckets, AddrIndex;
    AddrIndexSame(s.mapInfo, t.mapInfo, s.mapAddr);
    FactsCountSame(s.mapInfo, t.mapInfo);
    TriedBucketsSame(h, s.mapInfo, t.mapInfo, s.vvTried);
    assert t.mapAddr == s.mapAddr && t.vvNew == s.vvNew && t.vvTried == s.vvTried && t.nIdCount == s.nIdCount;
  }

  lemma FactsKeepTimes(info: Infos, info': Infos)
    requires SameFacts(info, info') && TimesPlausible(info)
    ensures TimesPlausible(info')
  {
    forall id | id in info'
      ensures PlausibleTimes(info'[id])
    {
      assert Alike(info'[id], info[id]) && PlausibleTimes(info[id]);
    }
  }

  lemma AddrIndexSame(info: Infos, info': Infos, mapAddr: map<NetAddr, int>)
    requires SameFacts(info, info') && AddrIndex(info, mapAddr)
    ensures AddrIndex(info', mapAddr)
  {
    forall id | id in info'
      ensures info'[id].service.ip in mapAddr && mapAddr[info'[id].service.ip] == id
    {
      assert Alike(info'[id], info[id]);
    }
    forall ip | ip in mapAddr
      ensures mapAddr[ip] in info' && info'[mapAddr[ip]].service.ip == ip
    {
      assert mapAddr[ip] in info && Alike(info'[mapAddr[ip]], info[mapAddr[ip]]);
    }
  }

  lemma TriedBucketsSame(h: Hashes, info: Infos, info': Infos, vvTried: seq<seq<int>>)
    requires SameFacts(info, info') && TriedBuckets(h, info, vvTried)
    ensures TriedBuckets(h, info', vvTried)
  {
    forall id | id in info'
      ensures h.TriedBucket(info'[id]) == h.TriedBucket(info[id])
    {
      assert Alike(info'[id], info[id]);
    }
    forall k, p | 0 <= k < |vvTried| && 0 <= p < |vvTried[k]|
      ensures vvTried[k][p] in info' && info'[vvTried[k][p]].fInTried && h.TriedBucket(info'[vvTried[k][p]]) == k
    {
      var id := vvTried[k][p];
      assert id in info && Alike(info'[id], info[id]);
    }
  }

  lemma SwapKeeps(h: Hashes, s: Tables, pending: int, p: nat, q: nat)
    requires Indexed(h, s, pending) && p < |s.vRandom| && q < |s.vRandom|
    ensures Indexed(h, Swapped(s, p, q), pending)
    ensures SameFacts(s.mapInfo, Swapped(s, p, q).mapInfo)
    ensures TimesPlausible(s.mapInfo) ==> TimesPlausible(Swapped(s, p, q).mapInfo)
  {
    hide Swapped, TimesPlausible;
    if TimesPlausible(s.mapInfo) {
      SwapKeepsFacts(s, p, q);
      FactsKeepTimes(s.mapInfo, Swapped(s, p, q).mapInfo);
    }
    SwapKeepsIndex(s, p, q);
    SwapKeepsFacts(s, p, q);
    FactsDecide(h, s, Swapped(s, p, q), pending);
  }

  lemma SwapKeepsIndex(s: Tables, p: nat, q: nat)
    requires RandomIndex(s.mapInfo, s.vRandom) && p < |s.vRandom| && q < |s.vRandom|
    ensures RandomIndex(Swapped(s, p, q).mapInfo, Swapped(s, p, q).vRandom)
  {
  }

  lemma SwapKeepsFacts(s: Tables, p: nat, q: nat)
    requires RandomIndex(s.mapInfo, s.vRandom) && p < |s.vRandom| && q < |s.vRandom|
    ensures var t := Swapped(s, p, q);
      && t == s.(mapInfo := t.mapInfo, vRandom := t.vRandom) && |t.vRandom| == |s.vRandom|
      && SameFacts(s.mapInfo, t.mapInfo)
  {
  }

  // ---------------------------------------------------------------- new buckets

  function Inserted(vvNew: seq<set<int>>, b: nat, id: int): seq<set<int>>
    requires b < |vvNew|
  {
    vvNew[b := vvNew[b] + {id}]
  }

  function Erased(vvNew: seq<set<int>>, b: nat, id: int): seq<set<int>>
    requires b < |vvNew|
  {
    vvNew[b := vvNew[b] - {id}]
  }

  lemma InsertHolds(vvNew: seq<set<int>>, b: nat, id: int, x: int)
    requires b < |vvNew| && id !in vvNew[b]
    ensures |Holders(Inserted(vvNew, b, id), x)| == |Holders(vvNew, x)| + if x == id then 1 else 0
  {
    if x == id {
      assert Holders(Inserted(vvNew, b, id), x) == Holders(vvNew, x) + {b};
    } else {
      assert Holders(Inserted(vvNew, b, id), x) == Holders(vvNew, x);
    }
  }

  lemma EraseHolds(vvNew: seq<set<int>>, b: nat, id: int, x: int)
    requires b < |vvNew| && id in vvNew[b]
    ensures |Holders(Erased(vvNew, b, id), x)| == |Holders(vvNew, x)| - if x == id then 1 else 0
  {
    if x == id {
      assert Holders(vvNew, x) == Holders(Erased(vvNew, b, id), x) + {b};
    } else {
      assert Holders(Erased(vvNew, b, id), x) == Holders(vvNew, x);
    }
  }

  lemma HeldSomewhere(vvNew: seq<set<int>>, b: nat, id: int)
    requires b < |vvNew| && id in vvNew[b]
    ensures |Holders(vvNew, id)| >= 1
    ensures |Holders(vvNew, id)| == 1 ==> forall c | 0 <= c < |vvNew| && id in vvNew[c] :: c == b
  {
    assert b in Holders(vvNew, id);
    var rest := Holders(vvNew, id) - {b};
    assert |rest| == |Holders(vvNew, id)| - 1;
    if |rest| == 0 {
      forall c | 0 <= c < |vvNew| && id in vvNew[c]
        ensures c == b
      {
        assert c in Holders(vvNew, id) && c !in rest;
      }
    }
  }

  /** Putting the pending entry into a bucket with room settles it. */
  lemma LinkKeeps(h: Hashes, s: Tables, id: int, b: nat)
    requires Indexed(h, s, id) && id in s.mapInfo
    requires b < |s.vvNew| && id !in s.vvNew[b] && |s.vvNew[b]| < NEW_BUCKET_SIZE
    ensures Indexed(h, s.(vvNew := Inserted(s.vvNew, b, id)), NONE)
  {
    hide Holders, TriedBuckets, AddrIndex, RandomIndex, Counts, TriedIds, NewIds;
    forall x | x in s.mapInfo
      ensures |Holders(Inserted(s.vvNew, b, id), x)| == |Holders(s.vvNew, x)| + if x == id then 1 else 0
    {
      InsertHolds(s.vvNew, b, id, x);
    }
  }

  /** An entry that is in several buckets leaves one of them. */
  function LeftBucket(s: Tables, id: int, b: nat): Tables
    requires id in s.mapInfo && b < |s.vvNew|
  {
    s.(mapInfo := s.mapInfo[id := s.mapInfo[id].(nRefCount := s.mapInfo[id].nRefCount - 1)],
       vvNew := Erased(s.vvNew, b, id))
  }

  lemma LeaveKeeps(h: Hashes, s: Tables, pending: int, id: int, b: nat)
    requires Indexed(h, s, pending) && id in s.mapInfo && id != pending
    requires b < |s.vvNew| && id in s.vvNew[b] && s.mapInfo[id].nRefCount > 1
    ensures Indexed(h, LeftBucket(s, id, b), pending)
  {
    var t := LeftBucket(s, id, b);
    assert t.mapInfo.Keys == s.mapInfo.Keys;
    assert TriedIds(t.mapInfo) == TriedIds(s.mapInfo) && NewIds(t.mapInfo) == NewIds(s.mapInfo);
    hide Holders, TriedIds, NewIds;
    forall x | x in s.mapInfo
      ensures |Holders(Erased(s.vvNew, b, id), x)| == |Holders(s.vvNew, x)| - if x == id then 1 else 0
    {
      EraseHolds(s.vvNew, b, id, x);
    }
  }

  /** The entry listed last in vRandom, referred to by one bucket only, is deleted. */
  function Dropped(s: Tables, id: int, b: nat): Tables
    requires id in s.mapInfo && b < |s.vvNew| && |s.vRandom| > 0
  {
    s.(mapInfo := s.mapInfo - {id}, mapAddr := s.mapAddr - {s.mapInfo[id].service.ip},
       vRandom := s.vRandom[..|s.vRandom| - 1], nNew := s.nNew - 1, vvNew := Erased(s.vvNew, b, id))
  }

  lemma NewIdsLose(info: Infos, id: int)
    requires id in info && !info[id].fInTried
    ensures |NewIds(info - {id})| == |NewIds(info)| - 1 && TriedIds(info - {id}) == TriedIds(info)
  {
    assert NewIds(info) == NewIds(info - {id}) + {id};
    assert TriedIds(info - {id}) == TriedIds(info);
  }

  lemma DropKeepsIndexes(info: Infos, mapAddr: map<NetAddr, int>, vRandom: seq<int>, id: int)
    requires AddrIndex(info, mapAddr) && RandomIndex(info, vRandom)
    requires id in info && info[id].nRandomPos == |vRandom| - 1
    ensures AddrIndex(info - {id}, mapAddr - {info[id].service.ip})
    ensures RandomIndex(info - {id}, vRandom[..|vRandom| - 1])
  {
  }

  lemma DropKeepsBuckets(h: Hashes, info: Infos, vvNew: seq<set<int>>, vvTried: seq<seq<int>>, pending: int, id: int,
                         b: nat)
    requires RefCounts(info, vvNew, pending) && NewBuckets(info, vvNew) && TriedBuckets(h, info, vvTried)
    requires b < |vvNew| && id in vvNew[b] && id in info && info[id].nRefCount == 1 && id != pending
    ensures RefCounts(info - {id}, Erased(vvNew, b, id), pending) && NewBuckets(info - {id}, Erased(vvNew, b, id))
    ensures TriedBuckets(h, info - {id}, vvTried)
  {
    HeldSomewhere(vvNew, b, id);
    hide Holders;
    forall x | x in info
      ensures |Holders(Erased(vvNew, b, id), x)| == |Holders(vvNew, x)| - if x == id then 1 else 0
    {
      EraseHolds(vvNew, b, id, x);
    }
  }

  lemma DropKeepsCounts(info: Infos, vRandom: seq<int>, nTried: int, nNew: int, nIdCount: int, id: int)
    requires Counts(info, vRandom, nTried, nNew) && IdsBelow(info, nIdCount) && |vRandom| > 0
    requires id in info && !info[id].fInTried
    ensures Counts(info - {id}, vRandom[..|vRandom| - 1], nTried, nNew - 1) && IdsBelow(info - {id}, nIdCount)
  {
    hide TriedIds, NewIds;
    NewIdsLose(info, id);
  }

  lemma CountedIsNew(info: Infos, vvNew: seq<set<int>>, pending: int, id: int)
    requires RefCounts(info, vvNew, pending) && id in info && info[id].nRefCount == 1
    ensures !info[id].fInTried
  {
    hide Holders;
  }

  lemma IndexedMeans(h: Hashes, s: Tables, pending: int)
    ensures Indexed(h, s, pending) <==>
      && AddrIndex(s.mapInfo, s.mapAddr) && RandomIndex(s.mapInfo, s.vRandom) && IdsBelow(s.mapInfo, s.nIdCount)
      && Counts(s.mapInfo, s.vRandom, s.nTried, s.nNew) && RefCounts(s.mapInfo, s.vvNew, pending)
      && NewBuckets(s.mapInfo, s.vvNew) && TriedBuckets(h, s.mapInfo, s.vvTried) && s.nIdCount >= 0
  {
  }

  lemma DropKeeps(h: Hashes, s: Tables, pending: int, id: int, b: nat)
    requires Indexed(h, s, pending) && id in s.mapInfo && id != pending
    requires b < |s.vvNew| && id in s.vvNew[b] && s.mapInfo[id].nRefCount == 1
    requires s.mapInfo[id].nRandomPos == |s.vRandom| - 1 && |s.vRandom| > 0
    ensures Indexed(h, Dropped(s, id, b), pending)
  {
    hide AddrIndex, RandomIndex, IdsBelow, Counts, RefCounts, NewBuckets, TriedBuckets, Indexed, Erased;
    IndexedMeans(h, s, pending);
    CountedIsNew(s.mapInfo, s.vvNew, pending, id);
    DropKeepsIndexes(s.mapInfo, s.mapAddr, s.vRandom, id);
    DropKeepsBuckets(h, s.mapInfo, s.vvNew, s.vvTried, pending, id, b);
    DropKeepsCounts(s.mapInfo, s.vRandom, s.nTried, s.nNew, s.nIdCount, id);
    IndexedMeans(h, Dropped(s, id, b), pending);
  }

  /** What ShrinkNew does to the entry it picks: out of the bucket, and out of the tables when that
      was its last one. */
  function Unlinked(s: Tables, id: int, b: nat): Tables
    requires id in s.mapInfo && b < |s.vvNew| && RandomIndex(s.mapInfo, s.vRandom)
  {
    if s.mapInfo[id].nRefCount == 1 then
      Dropped(Swapped(s, s.mapInfo[id].nRandomPos, |s.vRandom| - 1), id, b)
    else LeftBucket(s, id, b)
  }

  lemma LastAfterSwap(s: Tables, id: int)
    requires id in s.mapInfo && RandomIndex(s.mapInfo, s.vRandom)
    ensures var t := Swapped(s, s.mapInfo[id].nRandomPos, |s.vRandom| - 1);
      id in t.mapInfo && t.mapInfo[id].nRandomPos == |t.vRandom| - 1 && t.vvNew == s.vvNew && |t.vRandom| > 0
  {
  }

  /** What an unlinking may change: one entry, and places in vRandom. */
  predicate OnlyUnlinks(info: Infos, info': Infos, victim: int) {
    && info'.Keys <= info.Keys
    && (forall id | id in info && id != victim :: id in info' && Alike(info'[id], info[id]))
    && (victim in info ==>
          if info[victim].nRefCount == 1 then victim !in info'
          else victim in info' && Alike(info'[victim], info[victim].(nRefCount := info[victim].nRefCount - 1)))
  }

  lemma UnlinkKeeps(h: Hashes, s: Tables, pending: int, id: int, b: nat)
    requires Indexed(h, s, pending) && id in s.mapInfo && id != pending
    requires b < |s.vvNew| && id in s.vvNew[b]
    ensures Indexed(h, Unlinked(s, id, b), pending)
    ensures OnlyUnlinks(s.mapInfo, Unlinked(s, id, b).mapInfo, id)
    ensures Unlinked(s, id, b).vvNew == Erased(s.vvNew, b, id) && Unlinked(s, id, b).nIdCount == s.nIdCount
    ensures Unlinked(s, id, b).vvTried == s.vvTried
    ensures TimesPlausible(s.mapInfo) ==> TimesPlausible(Unlinked(s, id, b).mapInfo)
  {
    hide TimesPlausible, Swapped, AddrIndex, TriedBuckets, Holders, Counts, IdsBelow, NewBuckets, RefCounts;
    PositiveCount(s.mapInfo, s.vvNew, pending, id, b);
    if s.mapInfo[id].nRefCount == 1 {
      var p, q := s.mapInfo[id].nRandomPos, |s.vRandom| - 1;
      SwapKeeps(h, s, pending, p, q);
      SwapKeepsFacts(s, p, q);
      LastAfterSwap(s, id);
      DropKeeps(h, Swapped(s, p, q), pending, id, b);
    } else {
      LeaveKeeps(h, s, pending, id, b);
    }
    if TimesPlausible(s.mapInfo) {
      UnlinkKeepsTimes(s.mapInfo, Unlinked(s, id, b).mapInfo, id);
    }
  }

  lemma UnlinkKeepsTimes(info: Infos, info': Infos, victim: int)
    requires OnlyUnlinks(info, info', victim) && TimesPlausible(info)
    ensures TimesPlausible(info')
  {
    forall id | id in info'
      ensures PlausibleTimes(info'[id])
    {
      assert id in info && PlausibleTimes(info[id]);
    }
  }

  lemma PositiveCount(info: Infos, vvNew: seq<set<int>>, pending: int, id: int, b: nat)
    requires RefCounts(info, vvNew, pending) && id in info && b < |vvNew| && id in vvNew[b]
    ensures info[id].nRefCount >= 1 && !info[id].fInTried
  {
    HeldSomewhere(vvNew, b, id);
  }

  // ---------------------------------------------------------------- tried buckets

  function Without(vvNew: seq<set<int>>, id: int, upTo: nat): (r: seq<set<int>>)
    ensures |r| == |vvNew|
  {
    seq(|vvNew|, b requires 0 <= b < |vvNew| => if b < upTo then vvNew[b] - {id} else vvNew[b])
  }

  lemma WithoutHolds(vvNew: seq<set<int>>, id: int, x: int)
    ensures Holders(Without(vvNew, id, |vvNew|), x) == if x == id then {} else Holders(vvNew, x)
  {
  }

  /** The entry as the tried table holds it. */
  function AsTried(e: AddrInfo): AddrInfo {
    e.(nRefCount := 0, fInTried := true)
  }

  function AsEvicted(e: AddrInfo): AddrInfo {
    e.(nRefCount := 1, fInTried := false)
  }

  function Placed(h: Hashes, s: Tables, id: int): Tables
    requires id in s.mapInfo && |s.vvTried| == TRIED_BUCKET_COUNT
  {
    var k := h.TriedBucket(s.mapInfo[id]);
    s.(mapInfo := s.mapInfo[id := AsTried(s.mapInfo[id])],
       vvNew := Without(s.vvNew, id, |s.vvNew|), nNew := s.nNew - 1,
       vvTried := s.vvTried[k := s.vvTried[k] + [id]], nTried := s.nTried + 1)
  }

  lemma IdsMove(info: Infos, id: int)
    requires id in info && !info[id].fInTried
    ensures |TriedIds(info[id := AsTried(info[id])])| == |TriedIds(info)| + 1
    ensures |NewIds(info[id := AsTried(info[id])])| == |NewIds(info)| - 1
  {
    var info' := info[id := AsTried(info[id])];
    assert TriedIds(info') == TriedIds(info) + {id};
    assert NewIds(info) == NewIds(info') + {id};
  }

  lemma IdsMoveBack(info: Infos, id: int)
    requires id in info && info[id].fInTried
    ensures |TriedIds(info[id := AsEvicted(info[id])])| == |TriedIds(info)| - 1
    ensures |NewIds(info[id := AsEvicted(info[id])])| == |NewIds(info)| + 1
  {
    var info' := info[id := AsEvicted(info[id])];
    assert NewIds(info') == NewIds(info) + {id};
    assert TriedIds(info) == TriedIds(info') + {id};
  }

  lemma RetaggedIndexes(s: Tables, id: int, e: AddrInfo)
    requires AddrIndex(s.mapInfo, s.mapAddr) && RandomIndex(s.mapInfo, s.vRandom) && IdsBelow(s.mapInfo, s.nIdCount)
    requires id in s.mapInfo && e.service == s.mapInfo[id].service && e.nRandomPos == s.mapInfo[id].nRandomPos
    ensures AddrIndex(s.mapInfo[id := e], s.mapAddr) && RandomIndex(s.mapInfo[id := e], s.vRandom)
    ensures IdsBelow(s.mapInfo[id := e], s.nIdCount)
  {
  }

  lemma PlacedTriedBuckets(h: Hashes, info: Infos, vvTried: seq<seq<int>>, id: int)
    requires TriedBuckets(h, info, vvTried) && id in info && !info[id].fInTried
    requires |vvTried[h.TriedBucket(info[id])]| < TRIED_BUCKET_SIZE
    ensures var k := h.TriedBucket(info[id]);
      TriedBuckets(h, info[id := AsTried(info[id])], vvTried[k := vvTried[k] + [id]])
  {
  }

  lemma PlacedNewBuckets(info: Infos, vvNew: seq<set<int>>, id: int)
    requires RefCounts(info, vvNew, NONE) && NewBuckets(info, vvNew) && id in info && id != NONE
    ensures RefCounts(info[id := AsTried(info[id])], Without(vvNew, id, |vvNew|), NONE)
    ensures NewBuckets(info[id := AsTried(info[id])], Without(vvNew, id, |vvNew|))
  {
    var vvNew' := Without(vvNew, id, |vvNew|);
    forall b | 0 <= b < |vvNew'|
      ensures |vvNew'[b]| <= |vvNew[b]| && vvNew'[b] <= vvNew[b]
    {
      FewerElements(vvNew[b], id);
    }
    hide Holders, Without;
    forall x
      ensures Holders(vvNew', x) == if x == id then {} else Holders(vvNew, x)
    {
      WithoutHolds(vvNew, id, x);
    }
  }

  lemma FewerElements(s: set<int>, id: int)
    ensures |s - {id}| == |s| - if id in s then 1 else 0
  {
    if id in s {
      assert s == s - {id} + {id};
    } else {
      assert s - {id} == s;
    }
  }

  lemma TriedTimes(info: Infos, id: int)
    requires id in info
    ensures TimesPlausible(info) ==>
      (TimesPlausible(info[id := AsTried(info[id])]) <==> info[id].nLastSuccess != 0)
  {
    if TimesPlausible(info) {
      assert PlausibleTimes(info[id]);
      assert info[id := AsTried(info[id])][id] == AsTried(info[id]);
    }
  }

  lemma EvictedTimes(info: Infos, id: int, victim: int)
    requires id in info && victim in info && victim != id
    ensures TimesPlausible(info) ==>
      (TimesPlausible(info[id := AsTried(info[id])][victim := AsEvicted(info[victim])]) <==> info[id].nLastSuccess != 0)
  {
    if TimesPlausible(info) {
      assert PlausibleTimes(info[id]) && PlausibleTimes(info[victim]);
      assert info[id := AsTried(info[id])][victim := AsEvicted(info[victim])][id] == AsTried(info[id]);
    }
  }

  lemma PlaceKeeps(h: Hashes, s: Tables, id: int)
    requires Indexed(h, s, NONE) && id in s.mapInfo && !s.mapInfo[id].fInTried
    requires |s.vvTried[h.TriedBucket(s.mapInfo[id])]| < TRIED_BUCKET_SIZE
    ensures Indexed(h, Placed(h, s, id), NONE)
    ensures TimesPlausible(s.mapInfo) ==>
      (TimesPlausible(Placed(h, s, id).mapInfo) <==> s.mapInfo[id].nLastSuccess != 0)
  {
    TriedTimes(s.mapInfo, id);
    hide TimesPlausible;
    hide AddrIndex, RandomIndex, TriedBuckets, RefCounts, NewBuckets, Without, TriedIds, NewIds, Hashes.TriedBucket;
    IdsMove(s.mapInfo, id);
    RetaggedIndexes(s, id, AsTried(s.mapInfo[id]));
    PlacedTriedBuckets(h, s.mapInfo, s.vvTried, id);
    PlacedNewBuckets(s.mapInfo, s.vvNew, id);
  }

  function Replaced(h: Hashes, s: Tables, id: int, nPos: nat, dest: nat): Tables
    requires id in s.mapInfo && |s.vvTried| == TRIED_BUCKET_COUNT && dest < |s.vvNew|
    requires nPos < |s.vvTried[h.TriedBucket(s.mapInfo[id])]|
    requires s.vvTried[h.TriedBucket(s.mapInfo[id])][nPos] in s.mapInfo
  {
    var k := h.TriedBucket(s.mapInfo[id]);
    var victim := s.vvTried[k][nPos];
    s.(mapInfo := s.mapInfo[id := AsTried(s.mapInfo[id])][victim := AsEvicted(s.mapInfo[victim])],
       vvNew := Inserted(Without(s.vvNew, id, |s.vvNew|), dest, victim),
       vvTried := s.vvTried[k := s.vvTried[k][nPos := id]])
  }

  lemma ReplacedTriedBuckets(h: Hashes, info: Infos, vvTried: seq<seq<int>>, id: int, nPos: nat)
    requires TriedBuckets(h, info, vvTried) && id in info && !info[id].fInTried
    requires nPos < |vvTried[h.TriedBucket(info[id])]|
    ensures var k := h.TriedBucket(info[id]);
      var victim := vvTried[k][nPos];
      TriedBuckets(h, info[id := AsTried(info[id])][victim := AsEvicted(info[victim])],
                   vvTried[k := vvTried[k][nPos := id]])
  {
    var k := h.TriedBucket(info[id]);
    var victim := vvTried[k][nPos];
    var vvTried' := vvTried[k := vvTried[k][nPos := id]];
    var info' := info[id := AsTried(info[id])][victim := AsEvicted(info[victim])];
    forall x | x in info' && info'[x].fInTried
      ensures x in vvTried'[h.TriedBucket(info'[x])]
    {
      if x == id {
        assert vvTried'[k][nPos] == id;
      } else {
        var j := h.TriedBucket(info[x]);
        var p :| 0 <= p < |vvTried[j]| && vvTried[j][p] == x;
        assert vvTried'[j][p] == x;
      }
    }
  }

  lemma ReplacedNewBuckets(info: Infos, vvNew: seq<set<int>>, id: int, victim: int, dest: nat)
    requires RefCounts(info, vvNew, NONE) && NewBuckets(info, vvNew)
    requires id in info && id != NONE && !info[id].fInTried
    requires victim in info && victim != NONE && info[victim].fInTried
    requires dest < |vvNew| && |vvNew[dest] - {id}| < NEW_BUCKET_SIZE
    ensures var vvNew' := Inserted(Without(vvNew, id, |vvNew|), dest, victim);
      var info' := info[id := AsTried(info[id])][victim := AsEvicted(info[victim])];
      RefCounts(info', vvNew', NONE) && NewBuckets(info', vvNew')
  {
    var without := Without(vvNew, id, |vvNew|);
    assert without[dest] == vvNew[dest] - {id};
    hide RefCounts, NewBuckets, Without;
    PlacedNewBuckets(info, vvNew, id);
    HeldAgain(info[id := AsTried(info[id])], without, victim, dest);
  }

  /** An entry that leaves the tried table goes into one new bucket. */
  lemma HeldAgain(info: Infos, vvNew: seq<set<int>>, victim: int, dest: nat)
    requires RefCounts(info, vvNew, NONE) && NewBuckets(info, vvNew)
    requires victim in info && victim != NONE && info[victim].fInTried
    requires dest < |vvNew| && |vvNew[dest]| < NEW_BUCKET_SIZE
    ensures RefCounts(info[victim := AsEvicted(info[victim])], Inserted(vvNew, dest, victim), NONE)
    ensures NewBuckets(info[victim := AsEvicted(info[victim])], Inserted(vvNew, dest, victim))
  {
    assert |Holders(vvNew, victim)| == 0;
    NotInAny(vvNew, victim);
    hide Holders;
    forall x | x in info
      ensures |Holders(Inserted(vvNew, dest, victim), x)| == |Holders(vvNew, x)| + if x == victim then 1 else 0
    {
      InsertHolds(vvNew, dest, victim, x);
    }
  }

  lemma NotInAny(vvNew: seq<set<int>>, id: int)
    requires |Holders(vvNew, id)| == 0
    ensures forall b | 0 <= b < |vvNew| :: id !in vvNew[b]
  {
    forall b | 0 <= b < |vvNew|
      ensures id !in vvNew[b]
    {
      assert b !in Holders(vvNew, id);
    }
  }

  lemma ReplaceKeeps(h: Hashes, s: Tables, id: int, nPos: nat, dest: nat)
    requires Indexed(h, s, NONE) && id in s.mapInfo && !s.mapInfo[id].fInTried
    requires nPos < |s.vvTried[h.TriedBucket(s.mapInfo[id])]|
    requires dest < |s.vvNew| && |s.vvNew[dest] - {id}| < NEW_BUCKET_SIZE
    ensures s.vvTried[h.TriedBucket(s.mapInfo[id])][nPos] in s.mapInfo
    ensures Indexed(h, Replaced(h, s, id, nPos, dest), NONE)
    ensures TimesPlausible(s.mapInfo) ==>
      (TimesPlausible(Replaced(h, s, id, nPos, dest).mapInfo) <==> s.mapInfo[id].nLastSuccess != 0)
  {
    hide TimesPlausible;
    var k := h.TriedBucket(s.mapInfo[id]);
    var victim := s.vvTried[k][nPos];
    assert victim in s.mapInfo && s.mapInfo[victim].fInTried && victim != id;
    EvictedTimes(s.mapInfo, id, victim);
    hide AddrIndex, RandomIndex, TriedBuckets, RefCounts, NewBuckets, Without, TriedIds, NewIds, Hashes.TriedBucket;
    var mid := s.(mapInfo := s.mapInfo[id := AsTried(s.mapInfo[id])]);
    IdsMove(s.mapInfo, id);
    IdsMoveBack(mid.mapInfo, victim);
    RetaggedIndexes(s, id, AsTried(s.mapInfo[id]));
    RetaggedIndexes(mid, victim, AsEvicted(s.mapInfo[victim]));
    ReplacedTriedBuckets(h, s.mapInfo, s.vvTried, id, nPos);
    ReplacedNewBuckets(s.mapInfo, s.vvNew, id, victim, dest);
  }

  function Exchanged(q: seq<int>, i: nat, j: nat): seq<int>
    requires i < |q| && j < |q|
  {
    q[j := q[i]][i := q[j]]
  }

  lemma ExchangeKeeps(h: Hashes, info: Infos, vvTried: seq<seq<int>>, k: nat, i: nat, j: nat)
    requires TriedBuckets(h, info, vvTried) && k < |vvTried| && i < |vvTried[k]| && j < |vvTried[k]|
    ensures TriedBuckets(h, info, vvTried[k := Exchanged(vvTried[k], i, j)])
    ensures multiset(Exchanged(vvTried[k], i, j)) == multiset(vvTried[k])
  {
    var vvTried' := vvTried[k := Exchanged(vvTried[k], i, j)];
    forall id | id in info && info[id].fInTried
      ensures id in vvTried'[h.TriedBucket(info[id])]
    {
      var b := h.TriedBucket(info[id]);
      var p :| 0 <= p < |vvTried[b]| && vvTried[b][p] == id;
      assert vvTried'[b][if b != k then p else if p == i then j else if p == j then i else p] == id;
    }
  }
}
