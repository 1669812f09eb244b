/** Saving the address manager to disk and loading it again. */
module AddrManFiles {
  import opened AddrMans

  /** The part of an entry that is written. */
  datatype Record = Record(service: Service, nServices: Services, nTime: int, source: NetAddr, nLastSuccess: int,
                           nAttempts: int)

  /** The file: counters, the records of both tables, and for every new bucket the numbers of its
      records. */
  datatype File = File(newInfos: seq<Record>, triedInfos: seq<Record>, buckets: seq<seq<int>>)

  function Persist(e: AddrInfo): Record {
    Record(e.service, e.nServices, e.nTime, e.source, e.nLastSuccess, e.nAttempts)
  }

  function FromRecord(r: Record): AddrInfo {
    AddrInfo(r.service, r.nServices, r.nTime, r.source, r.nLastSuccess, 0, r.nAttempts, 0, false, -1)
  }

  /** What reading an unknown index conjures up. */
  const DEFAULT_INFO: AddrInfo := AddrInfo(Service(0, 0), {}, 0, 0, 0, 0, 0, 0, false, -1)

  // ---------------------------------------------------------------- loading, loop by loop

  function LoadNew(h: Hashes, file: File, n: nat): (t: Tables)
    requires n <= |file.newInfos|
    ensures |t.vvNew| == NEW_BUCKET_COUNT && |t.vvTried| == TRIED_BUCKET_COUNT
    ensures t.nNew == |file.newInfos| && t.nTried == |file.triedInfos|
  {
    if n == 0 then Cleared(|file.triedInfos|, |file.newInfos|)
    else
      var s := LoadNew(h, file, n - 1);
      var id := n - 1;
      var info := FromRecord(file.newInfos[id]).(nRandomPos := |s.vRandom|);
      var t := s.(mapInfo := s.mapInfo[id := info], mapAddr := s.mapAddr[info.service.ip := id],
                  vRandom := s.vRandom + [id]);
      if |file.buckets| != NEW_BUCKET_COUNT then
        t.(vvNew := Inserted(t.vvNew, h.NewBucket(info, info.source), id),
           mapInfo := t.mapInfo[id := info.(nRefCount := 1)])
      else t
  }

  function LoadTried(h: Hashes, file: File, n: nat): (t: Tables)
    requires n <= |file.triedInfos|
    ensures |t.vvNew| == NEW_BUCKET_COUNT && |t.vvTried| == TRIED_BUCKET_COUNT
  {
    if n == 0 then LoadNew(h, file, |file.newInfos|).(nIdCount := |file.newInfos|)
    else
      var s := LoadTried(h, file, n - 1);
      var info := FromRecord(file.triedInfos[n - 1]);
      var k := h.TriedBucket(info);
      if |s.vvTried[k]| < TRIED_BUCKET_SIZE then
        s.(mapInfo := s.mapInfo[s.nIdCount := info.(nRandomPos := |s.vRandom|, fInTried := true)],
           mapAddr := s.mapAddr[info.service.ip := s.nIdCount], vRandom := s.vRandom + [s.nIdCount],
           vvTried := s.vvTried[k := s.vvTried[k] + [s.nIdCount]], nIdCount := s.nIdCount + 1)
      else s.(nTried := s.nTried - 1)
  }

  /** One bucket entry is read. */
  function LoadIndex(file: File, s: Tables, b: nat, nIndex: int): (t: Tables)
    requires b < |s.vvNew|
    ensures |t.vvNew| == |s.vvNew|
  {
    var info := if nIndex in s.mapInfo then s.mapInfo[nIndex] else DEFAULT_INFO;
    if |file.buckets| == NEW_BUCKET_COUNT && info.nRefCount < NEW_BUCKETS_PER_ADDRESS then
      s.(mapInfo := s.mapInfo[nIndex := info.(nRefCount := info.nRefCount + 1)], vvNew := Inserted(s.vvNew, b, nIndex))
    else s.(mapInfo := s.mapInfo[nIndex := info])
  }

  function LoadBucket(file: File, s: Tables, b: nat, n: nat): (t: Tables)
    requires b < |s.vvNew| && b < |file.buckets| && n <= |file.buckets[b]|
    ensures |t.vvNew| == |s.vvNew|
    decreases n
  {
    if n == 0 then s else LoadIndex(file, LoadBucket(file, s, b, n - 1), b, file.buckets[b][n - 1])
  }

  function LoadBuckets(file: File, s: Tables, b: nat): (t: Tables)
    requires b <= |file.buckets| <= |s.vvNew|
    ensures |t.vvNew| == |s.vvNew|
    decreases b
  {
    if b == 0 then s else LoadBucket(file, LoadBuckets(file, s, b - 1), b - 1, |file.buckets[b - 1]|)
  }

  function Load(h: Hashes, file: File): Tables
    requires |file.buckets| <= NEW_BUCKET_COUNT
  {
    LoadBuckets(file, LoadTried(h, file, |file.triedInfos|), |file.buckets|)
  }

  // ---------------------------------------------------------------- saving

  /** A list of the elements of a set, each once. */
  ghost predicate Lists(q: seq<int>, s: set<int>) {
    && (forall x :: x in q <==> x in s)
    && (forall i, j | 0 <= i < j < |q| :: q[i] != q[j])
  }

  predicate Records(info: Infos, ids: seq<int>, records: seq<Record>) {
    |ids| == |records| && forall i | 0 <= i < |ids| :: ids[i] in info && records[i] == Persist(info[ids[i]])
  }

  /** The indexes of a bucket's entries among the saved records. */
  ghost predicate Indexes(bucket: seq<int>, newIds: seq<int>, vNew: set<int>) {
    && (forall i | 0 <= i < |bucket| :: 0 <= bucket[i] < |newIds| && newIds[bucket[i]] in vNew)
    && (forall i, j | 0 <= i < j < |bucket| :: bucket[i] != bucket[j])
    && (forall x | x in vNew :: exists i :: 0 <= i < |bucket| && 0 <= bucket[i] < |newIds| && newIds[bucket[i]] == x)
  }

  /** `file` is what saving `s` writes, with the entries in the order given by the two lists. */
  ghost predicate SavedAs(s: Tables, file: File, newIds: seq<int>, triedIds: seq<int>) {
    && Lists(newIds, NewIds(s.mapInfo)) && Records(s.mapInfo, newIds, file.newInfos)
    && Lists(triedIds, TriedIds(s.mapInfo)) && Records(s.mapInfo, triedIds, file.triedInfos)
    && |file.buckets| == |s.vvNew|
    && forall b | 0 <= b < |s.vvNew| :: Indexes(file.buckets[b], newIds, s.vvNew[b])
  }

  /** In some order. */
  ghost predicate IsSaveOf(s: Tables, file: File) {
    exists newIds, triedIds :: SavedAs(s, file, newIds, triedIds)
  }

  // ---------------------------------------------------------------- what loading a saved file gives

  /** Both tables are the same up to renaming id i to names[i]: the same addresses with the same
      persisted statistics, the same reference counts, the same new and tried buckets. */
  ghost predicate SameBook(s: Tables, t: Tables, names: seq<int>) {
    && Lists(names, s.mapInfo.Keys)
    && (forall i :: i in t.mapInfo <==> 0 <= i < |names|)
    && (forall i | 0 <= i < |names| ::
          && names[i] in s.mapInfo && Persist(t.mapInfo[i]) == Persist(s.mapInfo[names[i]])
          && t.mapInfo[i].nRefCount == s.mapInfo[names[i]].nRefCount &&
            t.mapInfo[i].fInTried == s.mapInfo[names[i]].fInTried)
    && |t.vvNew| == |s.vvNew| && |t.vvTried| == |s.vvTried|
    && (forall b, i | 0 <= b < |s.vvNew| && 0 <= i < |names| :: i in t.vvNew[b] <==> names[i] in s.vvNew[b])
    && (forall k, i | 0 <= k < |s.vvTried| && 0 <= i < |names| :: i in t.vvTried[k] <==> names[i] in s.vvTried[k])
    && t.nNew == s.nNew && t.nTried == s.nTried
  }

  lemma PersistedService(e: AddrInfo, f: AddrInfo)
    requires Persist(e) == Persist(f)
    ensures e.service == f.service && e.nLastSuccess == f.nLastSuccess
  {
  }

  /** The loaded entries up to some id: entry i carries the record of names[i]. */
  ghost predicate Loaded(s: Tables, t: Tables, names: seq<int>, m: nat) {
    && (forall i :: i in t.mapInfo <==> 0 <= i < |names|)
    && (forall i | 0 <= i < |names| ::
          && names[i] in s.mapInfo && Persist(t.mapInfo[i]) == Persist(s.mapInfo[names[i]])
          && t.mapInfo[i].nLastTry == 0 && t.mapInfo[i].nRandomPos == i && t.mapInfo[i].fInTried == (i >= m))
    && |t.vRandom| == |names| && (forall i | 0 <= i < |names| :: t.vRandom[i] == i)
    && AddrIndex(t.mapInfo, t.mapAddr)
  }

  ghost predicate Distinct(q: seq<int>) {
    forall i, j | 0 <= i < j < |q| :: q[i] != q[j]
  }

  /** Loading one more entry extends the correspondence. */
  lemma LoadedOneMore(h: Hashes, s: Tables, t: Tables, names: seq<int>, m: nat, id: int, e: AddrInfo)
    requires Indexed(h, s, NONE) && Loaded(s, t, names, m)
    requires id in s.mapInfo && id !in names
    requires Persist(e) == Persist(s.mapInfo[id]) && e.nLastTry == 0 && e.nRandomPos == |names|
    requires e.fInTried == (|names| >= m)
    ensures var n := |names|;
      Loaded(s, t.(mapInfo := t.mapInfo[n := e], mapAddr := t.mapAddr[e.service.ip := n], vRandom := t.vRandom + [n]),
             names + [id], m)
  {
    hide Persist, RandomIndex, Counts, RefCounts, NewBuckets, TriedBuckets, IdsBelow;
    var n := |names|;
    PersistedService(e, s.mapInfo[id]);
    forall i | 0 <= i < n
      ensures t.mapInfo[i].service.ip != e.service.ip
    {
      PersistedService(t.mapInfo[i], s.mapInfo[names[i]]);
      assert names[i] != id;
      assert s.mapAddr[s.mapInfo[names[i]].service.ip] == names[i];
    }
  }

  lemma {:induction false} LoadNewCorresponds(h: Hashes, s: Tables, file: File, newIds: seq<int>, triedIds: seq<int>,
                                              n: nat)
    requires Indexed(h, s, NONE) && SavedAs(s, file, newIds, triedIds) && n <= |newIds|
    ensures n <= |file.newInfos|
    ensures var t := LoadNew(h, file, n);
      && Loaded(s, t, newIds[..n], |newIds|)
      && t.vvNew == EMPTY.vvNew && t.vvTried == EMPTY.vvTried
      && t.nNew == |newIds| && t.nTried == |triedIds|
      && forall i | 0 <= i < n :: t.mapInfo[i].nRefCount == 0
  {
    hide Indexed, Loaded, Persist;
    if n == 0 {
      NothingLoaded(s, LoadNew(h, file, 0), newIds);
    } else {
      LoadNewCorresponds(h, s, file, newIds, triedIds, n - 1);
      var t := LoadNew(h, file, n - 1);
      LoadedSize(s, t, newIds[..n - 1], |newIds|);
      BucketCount(h, s);
      RecordIs(s, file.newInfos[n - 1], newIds[n - 1], n - 1, false);
      LoadedOneMore(h, s, t, newIds[..n - 1], |newIds|, newIds[n - 1],
                    FromRecord(file.newInfos[n - 1]).(nRandomPos := n - 1));
      assert newIds[..n] == newIds[..n - 1] + [newIds[n - 1]];
    }
  }

  lemma NothingLoaded(s: Tables, t: Tables, newIds: seq<int>)
    requires t.mapInfo == map[] && t.mapAddr == map[] && t.vRandom == []
    ensures Loaded(s, t, newIds[..0], |newIds|)
  {
  }

  lemma LoadedSize(s: Tables, t: Tables, names: seq<int>, m: nat)
    requires Loaded(s, t, names, m)
    ensures |t.vRandom| == |names| && forall i :: i in t.mapInfo <==> 0 <= i < |names|
  {
  }

  lemma BucketCount(h: Hashes, s: Tables)
    requires Indexed(h, s, NONE)
    ensures |s.vvNew| == NEW_BUCKET_COUNT && |s.vvTried| == TRIED_BUCKET_COUNT
  {
  }

  lemma RecordIs(s: Tables, r: Record, id: int, pos: int, tried: bool)
    requires id in s.mapInfo && r == Persist(s.mapInfo[id])
    ensures var e := FromRecord(r).(nRandomPos := pos, fInTried := tried);
      Persist(e) == Persist(s.mapInfo[id]) && e.nLastTry == 0 && e.nRefCount == 0
  {
  }

  // ---------------------------------------------------------------- the tried table finds room

  lemma {:induction false} InjectionFits(a: set<int>, names: seq<int>, s: set<int>)
    requires Distinct(names) && forall x | x in a :: 0 <= x < |names| && names[x] in s
    ensures |a| <= |s|
    decreases |a|
  {
    if a != {} {
      if forall x :: x !in a {
        assert false;
      }
      var x :| x in a;
      InjectionFits(a - {x}, names, s - {names[x]});
    }
  }

  function Elements(q: seq<int>): set<int> {
    set x | x in q
  }

  lemma {:induction false} ElementCount(q: seq<int>)
    ensures |Elements(q)| <= |q|
    ensures Distinct(q) ==> |Elements(q)| == |q|
    decreases |q|
  {
    if q == [] {
      assert Elements(q) == {};
    } else {
      var rest := q[..|q| - 1];
      ElementCount(rest);
      assert q == rest + [q[|q| - 1]];
      assert Elements(q) == Elements(rest) + {q[|q| - 1]};
      if Distinct(q) {
        assert q[|q| - 1] !in Elements(rest);
      }
    }
  }

  /** The tried buckets hold the loaded tried entries, each where it was before. */
  ghost predicate TriedSoFar(h: Hashes, s: Tables, vvTried: seq<seq<int>>, names: seq<int>, m: nat) {
    && |vvTried| == |s.vvTried| == TRIED_BUCKET_COUNT
    && (forall k, p | 0 <= k < |vvTried| && 0 <= p < |vvTried[k]| ::
          m <= vvTried[k][p] < |names| && names[vvTried[k][p]] in s.vvTried[k])
    && (forall k | 0 <= k < |vvTried| :: Distinct(vvTried[k]))
    && (forall i | m <= i < |names| :: names[i] in s.mapInfo && i in vvTried[h.TriedBucket(s.mapInfo[names[i]])])
  }

  lemma RoomForTried(h: Hashes, s: Tables, vvTried: seq<seq<int>>, names: seq<int>, m: nat, id: int, k: nat)
    requires TriedSoFar(h, s, vvTried, names, m) && Distinct(names) && id !in names
    requires k < |vvTried| && id in s.vvTried[k]
    ensures |vvTried[k]| < |s.vvTried[k]|
  {
    var q, r := vvTried[k], s.vvTried[k];
    var names' := names + [id];
    var q' := q + [|names|];
    ElementCount(q');
    ElementCount(r);
    forall x | x in Elements(q')
      ensures 0 <= x < |names'| && names'[x] in Elements(r)
    {
      var p :| 0 <= p < |q'| && q'[p] == x;
    }
    assert Distinct(q');
    InjectionFits(Elements(q'), names', Elements(r));
  }

  lemma TriedOneMore(h: Hashes, s: Tables, vvTried: seq<seq<int>>, names: seq<int>, m: nat, id: int)
    requires TriedSoFar(h, s, vvTried, names, m) && |names| >= m && id in s.mapInfo
    requires id in s.vvTried[h.TriedBucket(s.mapInfo[id])]
    ensures var k := h.TriedBucket(s.mapInfo[id]);
      TriedSoFar(h, s, vvTried[k := vvTried[k] + [|names|]], names + [id], m)
  {
  }

  lemma Listed(q: seq<int>, s: set<int>, n: nat)
    requires Lists(q, s) && n < |q|
    ensures q[n] in s && q[n] !in q[..n]
  {
    var x := q[n];
    assert x in q;
  }

  /** The names in the order of loading: new entries first. */
  lemma NamesDistinct(s: Tables, newIds: seq<int>, triedIds: seq<int>, n: nat)
    requires Lists(newIds, NewIds(s.mapInfo)) && Lists(triedIds, TriedIds(s.mapInfo)) && n <= |triedIds|
    ensures Distinct(newIds + triedIds[..n])
    ensures n < |triedIds| ==>
      triedIds[n] !in newIds + triedIds[..n] && triedIds[n] in s.mapInfo && s.mapInfo[triedIds[n]].fInTried
    ensures n == |triedIds| ==> Lists(newIds + triedIds[..n], s.mapInfo.Keys)
  {
    var names := newIds + triedIds[..n];
    forall i, j | 0 <= i < j < |names|
      ensures names[i] != names[j]
    {
      if i < |newIds| <= j {
        assert names[i] in newIds && names[j] in triedIds;
      }
    }
    if n < |triedIds| {
      Listed(triedIds, TriedIds(s.mapInfo), n);
      var id := triedIds[n];
      assert id !in newIds && id !in triedIds[..n];
    } else {
      forall x
        ensures x in names <==> x in s.mapInfo.Keys
      {
        assert x in s.mapInfo ==> x in NewIds(s.mapInfo) || x in TriedIds(s.mapInfo);
        assert triedIds[..n] == triedIds;
      }
    }
  }

  lemma InItsBucket(h: Hashes, s: Tables, id: int)
    requires Indexed(h, s, NONE) && id in s.mapInfo && s.mapInfo[id].fInTried
    ensures |s.vvTried| == TRIED_BUCKET_COUNT && id in s.vvTried[h.TriedBucket(s.mapInfo[id])]
    ensures |s.vvTried[h.TriedBucket(s.mapInfo[id])]| <= TRIED_BUCKET_SIZE
  {
  }

  lemma SameTriedBucket(h: Hashes, e: AddrInfo, f: AddrInfo)
    requires Persist(e) == Persist(f)
    ensures h.TriedBucket(e) == h.TriedBucket(f)
  {
  }

  ghost predicate TablesLoaded(h: Hashes, s: Tables, t: Tables, newIds: seq<int>, triedIds: seq<int>, n: nat) {
    && n <= |triedIds|
    && Loaded(s, t, newIds + triedIds[..n], |newIds|)
    && TriedSoFar(h, s, t.vvTried, newIds + triedIds[..n], |newIds|)
    && t.vvNew == EMPTY.vvNew && t.nIdCount == |newIds| + n
    && t.nNew == |newIds| && t.nTried == |triedIds|
    && forall i | i in t.mapInfo :: t.mapInfo[i].nRefCount == 0
  }

  lemma NoneTried(h: Hashes, s: Tables, newIds: seq<int>)
    requires |s.vvTried| == TRIED_BUCKET_COUNT
    ensures TriedSoFar(h, s, EMPTY.vvTried, newIds, |newIds|)
  {
  }

  lemma LoadTriedStarts(h: Hashes, s: Tables, file: File, newIds: seq<int>, triedIds: seq<int>)
    requires Indexed(h, s, NONE) && SavedAs(s, file, newIds, triedIds)
    ensures TablesLoaded(h, s, LoadTried(h, file, 0), newIds, triedIds, 0)
  {
    hide Indexed, Loaded, Persist, TriedSoFar, Lists, Distinct, LoadNew;
    BucketCount(h, s);
    NoneTried(h, s, newIds);
    LoadNewCorresponds(h, s, file, newIds, triedIds, |newIds|);
    assert newIds + triedIds[..0] == newIds == newIds[..|newIds|];
    LoadedIgnores(s, LoadNew(h, file, |file.newInfos|), newIds, |newIds|, |newIds|);
    LoadedSize(s, LoadTried(h, file, 0), newIds, |newIds|);
  }

  lemma {:induction false} LoadTriedCorresponds(h: Hashes, s: Tables, file: File, newIds: seq<int>, triedIds: seq<int>,
                                                n: nat)
    requires Indexed(h, s, NONE) && SavedAs(s, file, newIds, triedIds) && n <= |triedIds| == |file.triedInfos|
    ensures TablesLoaded(h, s, LoadTried(h, file, n), newIds, triedIds, n)
  {
    hide Indexed, Loaded, Persist, TriedSoFar, Hashes.TriedBucket, Lists, Distinct, LoadNew;
    if n == 0 {
      LoadTriedStarts(h, s, file, newIds, triedIds);
    } else {
      LoadTriedCorresponds(h, s, file, newIds, triedIds, n - 1);
      var t := LoadTried(h, file, n - 1);
      var names := newIds + triedIds[..n - 1];
      var id := triedIds[n - 1];
      NamesDistinct(s, newIds, triedIds, n - 1);
      LoadedSize(s, t, names, |newIds|);
      InItsBucket(h, s, id);
      var info := FromRecord(file.triedInfos[n - 1]);
      RecordIs(s, file.triedInfos[n - 1], id, |names|, true);
      RecordIs(s, file.triedInfos[n - 1], id, -1, false);
      SameTriedBucket(h, info, s.mapInfo[id]);
      RoomForTried(h, s, t.vvTried, names, |newIds|, id, h.TriedBucket(info));
      LoadedOneMore(h, s, t, names, |newIds|, id, info.(nRandomPos := |names|, fInTried := true));
      TriedOneMore(h, s, t.vvTried, names, |newIds|, id);
      assert newIds + triedIds[..n] == names + [id];
      var u := t.(mapInfo := t.mapInfo[|names| := info.(nRandomPos := |names|, fInTried := true)],
                  mapAddr := t.mapAddr[info.service.ip := |names|], vRandom := t.vRandom + [|names|]);
      LoadedIgnores(s, u, names + [id], |newIds|, |names| + 1);
      LoadedElse(s, u, LoadTried(h, file, n), names + [id], |newIds|);
    }
  }

  lemma LoadedIgnores(s: Tables, t: Tables, names: seq<int>, m: nat, nIdCount: int)
    requires Loaded(s, t, names, m)
    ensures Loaded(s, t.(nIdCount := nIdCount), names, m)
  {
  }

  lemma LoadedElse(s: Tables, t: Tables, u: Tables, names: seq<int>, m: nat)
    requires Loaded(s, t, names, m)
    requires u.mapInfo == t.mapInfo && u.mapAddr == t.mapAddr && u.vRandom == t.vRandom
    ensures Loaded(s, u, names, m)
  {
  }

  // ---------------------------------------------------------------- the new buckets

  predicate OnlyFrom(names: seq<int>, vNew': set<int>, vNew: set<int>) {
    forall i | i in vNew' :: 0 <= i < |names| && names[i] in vNew
  }

  predicate AllFrom(names: seq<int>, vNew': set<int>, vNew: set<int>) {
    forall i | 0 <= i < |names| && names[i] in vNew :: i in vNew'
  }

  /** The state while the buckets are read: complete before bucket b, and the first n entries of b. */
  ghost predicate BucketsSoFar(s: Tables, t: Tables, file: File, names: seq<int>, b: nat, n: nat) {
    && b <= |file.buckets| == |s.vvNew| == |t.vvNew|
    && (forall c | 0 <= c < |t.vvNew| :: OnlyFrom(names, t.vvNew[c], s.vvNew[c]))
    && (forall c | 0 <= c < b :: AllFrom(names, t.vvNew[c], s.vvNew[c]))
    && (forall c | b < c < |t.vvNew| :: t.vvNew[c] == {})
    && (b < |t.vvNew| ==> n <= |file.buckets[b]| && t.vvNew[b] == Elements(file.buckets[b][..n]))
    && (forall i | i in t.mapInfo :: t.mapInfo[i].nRefCount == |Holders(t.vvNew, i)|)
  }

  lemma FewerHolders(s: Tables, t: Tables, names: seq<int>, i: int, b: nat)
    requires 0 <= i < |names| && |s.vvNew| == |t.vvNew| && b < |s.vvNew|
    requires forall c | 0 <= c < |t.vvNew| :: OnlyFrom(names, t.vvNew[c], s.vvNew[c])
    requires names[i] in s.vvNew[b] && i !in t.vvNew[b]
    ensures |Holders(t.vvNew, i)| < |Holders(s.vvNew, names[i])|
  {
    var few, many := Holders(t.vvNew, i), Holders(s.vvNew, names[i]);
    assert b in many && b !in few;
    forall c | c in few
      ensures c in many - {b}
    {
      assert OnlyFrom(names, t.vvNew[c], s.vvNew[c]);
    }
    Smaller(few, many - {b});
  }

  lemma {:induction false} Smaller<T>(a: set<T>, b: set<T>)
    requires a <= b
    ensures |a| <= |b|
    ensures |a| == |b| ==> a == b
  {
    if a != {} {
      var x :| x in a;
      Smaller(a - {x}, b - {x});
    } else if b != {} {
      assert |b| > 0;
    }
  }

  /** Everything that is known while the buckets are read. */
  ghost predicate InBuckets(s: Tables, t0: Tables, t: Tables, file: File, names: seq<int>, m: nat, b: nat, n: nat) {
    && Loaded(s, t, names, m)
    && t == t0.(mapInfo := t.mapInfo, vvNew := t.vvNew)
    && BucketsSoFar(s, t, file, names, b, n)
  }

  lemma KnownIndex(h: Hashes, s: Tables, t: Tables, file: File, names: seq<int>, newIds: seq<int>, m: nat, b: nat,
                   n: nat)
    requires Indexed(h, s, NONE) && Loaded(s, t, names, m) && BucketsSoFar(s, t, file, names, b, n)
    requires b < |s.vvNew| && n < |file.buckets[b]| && newIds <= names
    requires Indexes(file.buckets[b], newIds, s.vvNew[b])
    ensures var x := file.buckets[b][n];
      && 0 <= x < |names| && x in t.mapInfo && names[x] in s.vvNew[b] && x !in t.vvNew[b]
      && t.mapInfo[x].nRefCount < NEW_BUCKETS_PER_ADDRESS
  {
    hide Holders, TriedBuckets, AddrIndex, RandomIndex, Counts, IdsBelow, Persist;
    var x := file.buckets[b][n];
    assert names[x] == newIds[x];
    if x in t.vvNew[b] {
      assert false;
    }
    FewerHolders(s, t, names, x, b);
    assert names[x] in s.mapInfo;
  }

  lemma LoadedRecounted(s: Tables, t: Tables, names: seq<int>, m: nat, x: int, count: int, vvNew: seq<set<int>>)
    requires Loaded(s, t, names, m) && x in t.mapInfo
    ensures Loaded(s, t.(mapInfo := t.mapInfo[x := t.mapInfo[x].(nRefCount := count)], vvNew := vvNew), names, m)
  {
    assert Persist(t.mapInfo[x].(nRefCount := count)) == Persist(t.mapInfo[x]);
    hide Persist;
  }

  lemma BucketGains(s: Tables, t: Tables, file: File, names: seq<int>, b: nat, n: nat)
    requires BucketsSoFar(s, t, file, names, b, n) && b < |s.vvNew| && n < |file.buckets[b]|
    requires var x := file.buckets[b][n];
      0 <= x < |names| && x in t.mapInfo && names[x] in s.vvNew[b] && x !in t.vvNew[b]
    ensures var x := file.buckets[b][n];
      BucketsSoFar(s, t.(mapInfo := t.mapInfo[x := t.mapInfo[x].(nRefCount := t.mapInfo[x].nRefCount + 1)],
                         vvNew := Inserted(t.vvNew, b, x)), file, names, b, n + 1)
  {
    var x := file.buckets[b][n];
    forall i | i in t.mapInfo
      ensures |Holders(Inserted(t.vvNew, b, x), i)| == |Holders(t.vvNew, i)| + if i == x then 1 else 0
    {
      InsertHolds(t.vvNew, b, x, i);
    }
    hide Holders;
    var q := file.buckets[b];
    OneMoreElement(q, n);
    var u := t.(mapInfo := t.mapInfo[x := t.mapInfo[x].(nRefCount := t.mapInfo[x].nRefCount + 1)],
                vvNew := Inserted(t.vvNew, b, x));
    forall c | 0 <= c < |u.vvNew|
      ensures OnlyFrom(names, u.vvNew[c], s.vvNew[c])
    {
      assert OnlyFrom(names, t.vvNew[c], s.vvNew[c]);
    }
    assert forall i | i in u.mapInfo :: u.mapInfo[i].nRefCount == |Holders(u.vvNew, i)|;
  }

  lemma OneMoreElement(q: seq<int>, n: nat)
    requires n < |q|
    ensures Elements(q[..n + 1]) == Elements(q[..n]) + {q[n]}
  {
    assert q[..n + 1] == q[..n] + [q[n]];
  }

  lemma {:induction false} BucketCorresponds(h: Hashes, s: Tables, t0: Tables, t: Tables, file: File, names: seq<int>,
                                             newIds: seq<int>, m: nat, b: nat, n: nat)
    requires Indexed(h, s, NONE) && InBuckets(s, t0, t, file, names, m, b, 0)
    requires b < |s.vvNew| == NEW_BUCKET_COUNT && newIds <= names && n <= |file.buckets[b]|
    requires Indexes(file.buckets[b], newIds, s.vvNew[b])
    ensures InBuckets(s, t0, LoadBucket(file, t, b, n), file, names, m, b, n)
    decreases n
  {
    hide Indexed, Loaded, BucketsSoFar, Inserted;
    InBucketsSizes(s, t, file, names, b, 0);
    if n > 0 {
      BucketCorresponds(h, s, t0, t, file, names, newIds, m, b, n - 1);
      var u := LoadBucket(file, t, b, n - 1);
      KnownIndex(h, s, u, file, names, newIds, m, b, n - 1);
      BucketGains(s, u, file, names, b, n - 1);
      var x := file.buckets[b][n - 1];
      LoadedRecounted(s, u, names, m, x, u.mapInfo[x].nRefCount + 1, Inserted(u.vvNew, b, x));
    }
  }

  lemma InBucketsSizes(s: Tables, t: Tables, file: File, names: seq<int>, b: nat, n: nat)
    requires BucketsSoFar(s, t, file, names, b, n)
    ensures b <= |file.buckets| == |s.vvNew| == |t.vvNew|
  {
  }

  lemma IndexListed(bucket: seq<int>, newIds: seq<int>, names: seq<int>, vNew: set<int>, i: nat)
    requires Indexes(bucket, newIds, vNew) && newIds <= names && Distinct(names)
    requires i < |names| && names[i] in vNew
    ensures i in bucket
  {
    var x := names[i];
    assert x in vNew;
    var j :| 0 <= j < |bucket| && 0 <= bucket[j] < |newIds| && newIds[bucket[j]] == x;
    assert names[bucket[j]] == x;
    assert bucket[j] == i;
  }

  /** A bucket that was read to its end is complete. */
  lemma BucketDone(s: Tables, t: Tables, file: File, names: seq<int>, newIds: seq<int>, b: nat)
    requires b < |s.vvNew| == |file.buckets| && newIds <= names && Distinct(names)
    requires BucketsSoFar(s, t, file, names, b, |file.buckets[b]|) && Indexes(file.buckets[b], newIds, s.vvNew[b])
    ensures BucketsSoFar(s, t, file, names, b + 1, 0)
  {
    hide Holders, OnlyFrom, Indexes;
    var q := file.buckets[b];
    assert q[..|q|] == q;
    forall i | 0 <= i < |names| && names[i] in s.vvNew[b]
      ensures i in t.vvNew[b]
    {
      IndexListed(q, newIds, names, s.vvNew[b], i);
    }
    if b + 1 < |t.vvNew| {
      assert Elements(file.buckets[b + 1][..0]) == {};
    }
  }

  lemma {:induction false} BucketsCorrespond(h: Hashes, s: Tables, t0: Tables, file: File, names: seq<int>,
                                             newIds: seq<int>, m: nat, b: nat)
    requires Indexed(h, s, NONE) && InBuckets(s, t0, t0, file, names, m, 0, 0)
    requires b <= |s.vvNew| == |file.buckets| == |t0.vvNew| == NEW_BUCKET_COUNT && newIds <= names && Distinct(names)
    requires forall c | 0 <= c < |s.vvNew| :: Indexes(file.buckets[c], newIds, s.vvNew[c])
    ensures InBuckets(s, t0, LoadBuckets(file, t0, b), file, names, m, b, 0)
    decreases b
  {
    hide Indexed, Loaded, BucketsSoFar, LoadBucket, Indexes, Distinct;
    if b > 0 {
      BucketsCorrespond(h, s, t0, file, names, newIds, m, b - 1);
      var t := LoadBuckets(file, t0, b - 1);
      BucketCorresponds(h, s, t0, t, file, names, newIds, m, b - 1, |file.buckets[b - 1]|);
      BucketDone(s, LoadBuckets(file, t0, b), file, names, newIds, b - 1);
    }
  }

  lemma NoBucketsYet(s: Tables, t: Tables, file: File, names: seq<int>)
    requires t.vvNew == EMPTY.vvNew && |s.vvNew| == |file.buckets| == NEW_BUCKET_COUNT
    requires forall i | i in t.mapInfo :: t.mapInfo[i].nRefCount == 0
    ensures BucketsSoFar(s, t, file, names, 0, 0)
  {
    assert Elements(file.buckets[0][..0]) == {};
    forall i | i in t.mapInfo
      ensures Holders(t.vvNew, i) == {}
    {
    }
  }

  // ---------------------------------------------------------------- the result

  /** Names of tried entries come after names of new ones. */
  ghost predicate NamesSplit(s: Tables, names: seq<int>, m: nat) {
    && m <= |names| && Distinct(names) && Lists(names, s.mapInfo.Keys)
    && forall i | 0 <= i < |names| :: names[i] in s.mapInfo && s.mapInfo[names[i]].fInTried == (i >= m)
  }

  lemma NamesAreSplit(s: Tables, newIds: seq<int>, triedIds: seq<int>)
    requires Lists(newIds, NewIds(s.mapInfo)) && Lists(triedIds, TriedIds(s.mapInfo))
    ensures NamesSplit(s, newIds + triedIds, |newIds|)
    ensures |newIds| == |NewIds(s.mapInfo)| && |triedIds| == |TriedIds(s.mapInfo)|
  {
    NamesDistinct(s, newIds, triedIds, |triedIds|);
    assert triedIds[..|triedIds|] == triedIds;
    forall i | 0 <= i < |newIds + triedIds|
      ensures var id := (newIds + triedIds)[i]; id in s.mapInfo && s.mapInfo[id].fInTried == (i >= |newIds|)
    {
      if i < |newIds| {
        Listed(newIds, NewIds(s.mapInfo), i);
      } else {
        Listed(triedIds, TriedIds(s.mapInfo), i - |newIds|);
      }
    }
    ElementsListed(newIds, NewIds(s.mapInfo));
    ElementsListed(triedIds, TriedIds(s.mapInfo));
  }

  lemma ElementsListed(q: seq<int>, s: set<int>)
    requires Lists(q, s)
    ensures |q| == |s|
  {
    ElementCount(q);
    forall x
      ensures x in Elements(q) <==> x in s
    {
      assert x in q <==> x in s;
    }
    assert Elements(q) == s;
  }

  lemma SameHolders(s: Tables, t: Tables, names: seq<int>, i: int)
    requires 0 <= i < |names| && |s.vvNew| == |t.vvNew|
    requires forall c | 0 <= c < |t.vvNew| ::
      OnlyFrom(names, t.vvNew[c], s.vvNew[c]) && AllFrom(names, t.vvNew[c], s.vvNew[c])
    ensures Holders(t.vvNew, i) == Holders(s.vvNew, names[i])
  {
    forall c: nat | c < |t.vvNew|
      ensures i in t.vvNew[c] <==> names[i] in s.vvNew[c]
    {
      assert OnlyFrom(names, t.vvNew[c], s.vvNew[c]) && AllFrom(names, t.vvNew[c], s.vvNew[c]);
    }
    assert forall c :: c in Holders(t.vvNew, i) <==> c in Holders(s.vvNew, names[i]);
  }

  lemma LoadedRefCounts(h: Hashes, s: Tables, t: Tables, names: seq<int>, m: nat)
    requires Indexed(h, s, NONE) && Loaded(s, t, names, m) && NamesSplit(s, names, m) && |s.vvNew| == |t.vvNew|
    requires forall c | 0 <= c < |t.vvNew| ::
      OnlyFrom(names, t.vvNew[c], s.vvNew[c]) && AllFrom(names, t.vvNew[c], s.vvNew[c])
    requires forall i | i in t.mapInfo :: t.mapInfo[i].nRefCount == |Holders(t.vvNew, i)|
    ensures RefCounts(t.mapInfo, t.vvNew, NONE)
    ensures forall i | 0 <= i < |names| :: t.mapInfo[i].nRefCount == s.mapInfo[names[i]].nRefCount
  {
    hide Holders, AddrIndex, RandomIndex, Counts, TriedBuckets, Persist, Lists, Distinct, OnlyFrom, AllFrom;
    forall i | 0 <= i < |names|
      ensures i in t.mapInfo && t.mapInfo[i].nRefCount == s.mapInfo[names[i]].nRefCount == |Holders(t.vvNew, i)|
      ensures t.mapInfo[i].fInTried == s.mapInfo[names[i]].fInTried && t.mapInfo[i].nRefCount <= NEW_BUCKETS_PER_ADDRESS
      ensures t.mapInfo[i].fInTried <==> t.mapInfo[i].nRefCount == 0
    {
      SameHolders(s, t, names, i);
      assert names[i] in s.mapInfo && names[i] != NONE;
    }
    forall i | i in t.mapInfo
      ensures 0 <= i < |names|
    {
    }
  }

  lemma LoadedNewBuckets(h: Hashes, s: Tables, t: Tables, names: seq<int>, m: nat)
    requires Indexed(h, s, NONE) && Loaded(s, t, names, m) && NamesSplit(s, names, m) && |s.vvNew| == |t.vvNew|
    requires forall c | 0 <= c < |t.vvNew| :: OnlyFrom(names, t.vvNew[c], s.vvNew[c])
    ensures NewBuckets(t.mapInfo, t.vvNew)
  {
    hide Holders, AddrIndex, RandomIndex, Counts, TriedBuckets, RefCounts, Persist, Lists;
    forall b | 0 <= b < |t.vvNew|
      ensures |t.vvNew[b]| <= NEW_BUCKET_SIZE
    {
      assert OnlyFrom(names, t.vvNew[b], s.vvNew[b]);
      InjectionFits(t.vvNew[b], names, s.vvNew[b]);
    }
    forall b, id | 0 <= b < |t.vvNew| && id in t.vvNew[b]
      ensures id in t.mapInfo
    {
      assert OnlyFrom(names, t.vvNew[b], s.vvNew[b]);
    }
  }

  lemma TriedFits(h: Hashes, s: Tables, vvTried: seq<seq<int>>, names: seq<int>, m: nat, k: nat)
    requires TriedSoFar(h, s, vvTried, names, m) && Distinct(names) && k < |vvTried|
    ensures |vvTried[k]| <= |s.vvTried[k]|
  {
    var q, r := vvTried[k], s.vvTried[k];
    ElementCount(q);
    ElementCount(r);
    forall x | x in Elements(q)
      ensures 0 <= x < |names| && names[x] in Elements(r)
    {
      var p :| 0 <= p < |q| && q[p] == x;
    }
    InjectionFits(Elements(q), names, Elements(r));
  }

  lemma OldTriedBucket(h: Hashes, s: Tables, id: int, k: nat)
    requires Indexed(h, s, NONE) && k < |s.vvTried| && id in s.vvTried[k]
    ensures id in s.mapInfo && s.mapInfo[id].fInTried && h.TriedBucket(s.mapInfo[id]) == k
    ensures |s.vvTried[k]| <= TRIED_BUCKET_SIZE
  {
    var p :| 0 <= p < |s.vvTried[k]| && s.vvTried[k][p] == id;
  }

  lemma TriedEntry(h: Hashes, s: Tables, t: Tables, names: seq<int>, m: nat, k: nat, i: int)
    requires Indexed(h, s, NONE) && Loaded(s, t, names, m) && NamesSplit(s, names, m)
    requires TriedSoFar(h, s, t.vvTried, names, m) && k < |t.vvTried| && 0 <= i < |names|
    ensures names[i] in s.vvTried[k] <==> i in t.vvTried[k]
    ensures i in t.vvTried[k] ==> i in t.mapInfo && t.mapInfo[i].fInTried && h.TriedBucket(t.mapInfo[i]) == k
    ensures i in t.mapInfo && t.mapInfo[i].fInTried ==> i in t.vvTried[h.TriedBucket(t.mapInfo[i])]
  {
    hide Indexed, Persist, Lists, Distinct, Hashes.TriedBucket, AddrIndex;
    SameTriedBucket(h, t.mapInfo[i], s.mapInfo[names[i]]);
    if names[i] in s.vvTried[k] {
      OldTriedBucket(h, s, names[i], k);
    }
    if i in t.vvTried[k] {
      var p :| 0 <= p < |t.vvTried[k]| && t.vvTried[k][p] == i;
    }
  }

  lemma SameTriedMembers(h: Hashes, s: Tables, t: Tables, names: seq<int>, m: nat)
    requires Indexed(h, s, NONE) && Loaded(s, t, names, m) && NamesSplit(s, names, m)
    requires TriedSoFar(h, s, t.vvTried, names, m)
    ensures |t.vvTried| == |s.vvTried|
    ensures forall k, i | 0 <= k < |s.vvTried| && 0 <= i < |names| :: i in t.vvTried[k] <==> names[i] in s.vvTried[k]
  {
    hide Indexed, Loaded, NamesSplit;
    forall k, i | 0 <= k < |s.vvTried| && 0 <= i < |names|
      ensures i in t.vvTried[k] <==> names[i] in s.vvTried[k]
    {
      TriedEntry(h, s, t, names, m, k, i);
    }
  }

  lemma TriedSize(h: Hashes, s: Tables, vvTried: seq<seq<int>>, names: seq<int>, m: nat, k: nat)
    requires Indexed(h, s, NONE) && TriedSoFar(h, s, vvTried, names, m) && Distinct(names) && k < |vvTried|
    ensures |vvTried[k]| <= TRIED_BUCKET_SIZE && Distinct(vvTried[k])
    ensures forall p | 0 <= p < |vvTried[k]| :: 0 <= vvTried[k][p] < |names| && vvTried[k][p] in vvTried[k]
  {
    TriedFits(h, s, vvTried, names, m, k);
    hide AddrIndex, RandomIndex, Counts, NewBuckets, RefCounts, IdsBelow;
  }

  lemma LoadedTriedBuckets(h: Hashes, s: Tables, t: Tables, names: seq<int>, m: nat)
    requires Indexed(h, s, NONE) && Loaded(s, t, names, m) && NamesSplit(s, names, m)
    requires TriedSoFar(h, s, t.vvTried, names, m)
    ensures TriedBuckets(h, t.mapInfo, t.vvTried)
  {
    SplitIsDistinct(s, names, m);
    LoadedSize(s, t, names, m);
    TriedBucketTotal(h, s, t.vvTried, names, m);
    hide Indexed, Loaded, NamesSplit, TriedSoFar, Hashes.TriedBucket;
    forall k, p | 0 <= k < |t.vvTried| && 0 <= p < |t.vvTried[k]|
      ensures t.vvTried[k][p] in t.mapInfo && t.mapInfo[t.vvTried[k][p]].fInTried
      ensures h.TriedBucket(t.mapInfo[t.vvTried[k][p]]) == k
    {
      TriedSize(h, s, t.vvTried, names, m, k);
      TriedEntry(h, s, t, names, m, k, t.vvTried[k][p]);
    }
    forall k | 0 <= k < |t.vvTried|
      ensures |t.vvTried[k]| <= TRIED_BUCKET_SIZE && Distinct(t.vvTried[k])
    {
      TriedSize(h, s, t.vvTried, names, m, k);
    }
    forall id | id in t.mapInfo && t.mapInfo[id].fInTried
      ensures id in t.vvTried[h.TriedBucket(t.mapInfo[id])]
    {
      TriedEntry(h, s, t, names, m, 0, id);
    }
  }

  lemma TriedBucketTotal(h: Hashes, s: Tables, vvTried: seq<seq<int>>, names: seq<int>, m: nat)
    requires TriedSoFar(h, s, vvTried, names, m)
    ensures |vvTried| == TRIED_BUCKET_COUNT
  {
  }

  lemma {:induction false} RangeCount(s: set<int>, lo: int, hi: int)
    requires lo <= hi && forall x :: x in s <==> lo <= x < hi
    ensures |s| == hi - lo
    decreases hi - lo
  {
    if lo == hi {
      assert s == {};
    } else {
      var rest := s - {lo};
      RangeCount(rest, lo + 1, hi);
      assert lo in s;
      assert |rest| == |s| - 1;
    }
  }

  /** Times that were saved are as plausible when loaded. */
  lemma LoadedTimes(s: Tables, t: Tables, names: seq<int>, m: nat)
    requires Loaded(s, t, names, m) && NamesSplit(s, names, m) && TimesPlausible(s.mapInfo)
    ensures TimesPlausible(t.mapInfo)
  {
    hide Persist, Lists, Distinct, AddrIndex;
    forall i | i in t.mapInfo
      ensures PlausibleTimes(t.mapInfo[i])
    {
      assert 0 <= i < |names|;
      TimesAt(s.mapInfo, names[i]);
      PersistedService(t.mapInfo[i], s.mapInfo[names[i]]);
    }
  }

  lemma LoadedCounts(h: Hashes, s: Tables, t: Tables, names: seq<int>, m: nat)
    requires Indexed(h, s, NONE) && Loaded(s, t, names, m) && m <= |names|
    requires t.nNew == m && t.nTried == |names| - m && t.nIdCount == |names| && NamesSplit(s, names, m)
    ensures Counts(t.mapInfo, t.vRandom, t.nTried, t.nNew)
    ensures RandomIndex(t.mapInfo, t.vRandom) && AddrIndex(t.mapInfo, t.mapAddr) && IdsBelow(t.mapInfo, t.nIdCount)
  {
    hide TriedBuckets, RefCounts, NewBuckets, Lists, Distinct, AddrIndex;
    RangeCount(NewIds(t.mapInfo), 0, m);
    RangeCount(TriedIds(t.mapInfo), m, |names|);
    hide Persist, TriedIds, NewIds;
  }

  /** Loading a saved address manager, with the same key and bucket counts, gives a consistent one
      that is the same up to the numbering of ids: nothing is lost. */
  lemma SaveThenLoad(h: Hashes, s: Tables, file: File, newIds: seq<int>, triedIds: seq<int>)
    requires Indexed(h, s, NONE) && SavedAs(s, file, newIds, triedIds)
    ensures |file.buckets| == NEW_BUCKET_COUNT
    ensures Indexed(h, Load(h, file), NONE)
    ensures TimesPlausible(s.mapInfo) ==> TimesPlausible(Load(h, file).mapInfo)
    ensures SameBook(s, Load(h, file), newIds + triedIds)
  {
    hide TimesPlausible, LoadBuckets, LoadTried, Loaded, TriedSoFar, NamesSplit, TriedBuckets, RefCounts, NewBuckets;
    hide RandomIndex, AddrIndex, IdsBelow, Indexes, Lists, Distinct, OnlyFrom, AllFrom, Holders, Persist;
    hide TriedIds, NewIds;
    BucketCount(h, s);
    var names, m := newIds + triedIds, |newIds|;
    NamesAreSplit(s, newIds, triedIds);
    SplitIsDistinct(s, names, m);
    LoadTriedCorresponds(h, s, file, newIds, triedIds, |triedIds|);
    var t0 := LoadTried(h, file, |triedIds|);
    assert triedIds[..|triedIds|] == triedIds;
    NoBucketsYet(s, t0, file, names);
    BucketsCorrespond(h, s, t0, file, names, newIds, m, NEW_BUCKET_COUNT);
    var t := Load(h, file);
    LoadedRefCounts(h, s, t, names, m);
    LoadedNewBuckets(h, s, t, names, m);
    LoadedTriedBuckets(h, s, t, names, m);
    SameTriedMembers(h, s, t, names, m);
    LoadedCounts(h, s, t, names, m);
    if TimesPlausible(s.mapInfo) {
      LoadedTimes(s, t, names, m);
    }
    SameBookSoFar(s, t, names, m);
  }

  /** However it was ordered, a saved file loads as the same book. */
  lemma LoadOfSave(h: Hashes, s: Tables, file: File)
    requires Indexed(h, s, NONE) && IsSaveOf(s, file)
    ensures |file.buckets| == NEW_BUCKET_COUNT && Indexed(h, Load(h, file), NONE)
    ensures TimesPlausible(s.mapInfo) ==> TimesPlausible(Load(h, file).mapInfo)
    ensures exists names :: SameBook(s, Load(h, file), names)
  {
    hide *;
    var newIds, triedIds := SomeOrder(s, file);
    SaveThenLoad(h, s, file, newIds, triedIds);
  }

  lemma SomeOrder(s: Tables, file: File) returns (newIds: seq<int>, triedIds: seq<int>)
    requires IsSaveOf(s, file)
    ensures SavedAs(s, file, newIds, triedIds)
  {
    newIds, triedIds :| SavedAs(s, file, newIds, triedIds);
  }

  lemma SplitIsDistinct(s: Tables, names: seq<int>, m: nat)
    requires NamesSplit(s, names, m)
    ensures Distinct(names) && m <= |names|
  {
  }

  lemma SameBookSoFar(s: Tables, t: Tables, names: seq<int>, m: nat)
    requires Loaded(s, t, names, m) && NamesSplit(s, names, m) && |s.vvNew| == |t.vvNew|
    requires forall c | 0 <= c < |t.vvNew| ::
      OnlyFrom(names, t.vvNew[c], s.vvNew[c]) && AllFrom(names, t.vvNew[c], s.vvNew[c])
    ensures Lists(names, s.mapInfo.Keys)
    ensures forall i :: i in t.mapInfo <==> 0 <= i < |names|
    ensures forall i | 0 <= i < |names| ::
      names[i] in s.mapInfo && Persist(t.mapInfo[i]) == Persist(s.mapInfo[names[i]]) &&
        t.mapInfo[i].fInTried == s.mapInfo[names[i]].fInTried
    ensures forall b, i | 0 <= b < |s.vvNew| && 0 <= i < |names| :: i in t.vvNew[b] <==> names[i] in s.vvNew[b]
  {
    hide Lists, Persist;
    forall b, i | 0 <= b < |s.vvNew| && 0 <= i < |names|
      ensures i in t.vvNew[b] <==> names[i] in s.vvNew[b]
    {
      assert OnlyFrom(names, t.vvNew[b], s.vvNew[b]) && AllFrom(names, t.vvNew[b], s.vvNew[b]);
    }
  }
}