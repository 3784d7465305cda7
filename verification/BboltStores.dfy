/**
 The store as the object the indexer writes through (storage/bbolt.go, storage/truncate.go):
 each bucket is a field, each loop over a batch or a bucket is a loop, and every transaction
 is proved to make of the buckets what module IndexDb says.
 */
module BboltStores {
  import opened IndexTypes
  import opened WriteBatches
  import opened IndexDb
  import opened BatchBoundary
  import opened DerivedIndexes
  import opened Rollback

  // ---------- Loops shared by the transactions ----------

  function Restrict<K, V>(m: map<K, V>, ks: set<K>): map<K, V> {
    map k | k in m && k in ks :: m[k]
  }

  /** Puts every pair of `add` into a bucket, one at a time. */
  method PutAll<K(==), V>(bucket: map<K, V>, add: map<K, V>) returns (after: map<K, V>)
    ensures after == bucket + add
  {
    after := bucket;
    var todo := add.Keys;
    while todo != {}
      invariant todo <= add.Keys
      invariant after == bucket + Restrict(add, add.Keys - todo)
      decreases |todo|
    {
      var k :| k in todo;
      after := after[k := add[k]];
      todo := todo - {k};
    }
  }

  /** Two-phase deletion: collect the keys that match, then delete them. */
  method DeleteWhere<K(==), V>(bucket: map<K, V>, pred: K -> bool) returns (after: map<K, V>)
    ensures after == map k | k in bucket && !pred(k) :: bucket[k]
  {
    var doomed := [];
    var todo := bucket.Keys;
    while todo != {}
      invariant todo <= bucket.Keys
      invariant forall k :: k in doomed <==> k in bucket && k !in todo && pred(k)
      decreases |todo|
    {
      var k :| k in todo;
      if pred(k) {
        doomed := doomed + [k];
      }
      todo := todo - {k};
    }
    after := bucket;
    for i := 0 to |doomed|
      invariant after == bucket - set j | 0 <= j < i :: doomed[j]
    {
      after := after - {doomed[i]};
    }
  }

  /** The scids of the rows above h. */
  method CollectAbove<V>(rows: map<ScidHeight, V>, h: nat) returns (scids: set<Scid>)
    ensures scids == ScidsAbove(rows, h)
  {
    scids := {};
    var todo := rows.Keys;
    while todo != {}
      invariant todo <= rows.Keys
      invariant scids == set k | k in rows.Keys - todo && k.height > h :: k.scid
      decreases |todo|
    {
      var k :| k in todo;
      if k.height > h {
        scids := scids + {k.scid};
      }
      todo := todo - {k};
    }
  }

  ghost predicate Ascending(q: seq<nat>) {
    forall i, j | 0 <= i < j < |q| :: q[i] <= q[j]
  }

  /** slices.Sort on a batch's heights. */
  method SortHeights(hs: seq<nat>) returns (sorted: seq<nat>)
    ensures multiset(sorted) == multiset(hs)
    ensures Ascending(sorted)
  {
    sorted := [];
    for n := 0 to |hs|
      invariant multiset(sorted) == multiset(hs[..n])
      invariant Ascending(sorted)
    {
      hide Ascending;
      assert hs[..n + 1] == hs[..n] + [hs[n]];
      sorted := InsertHeight(sorted, hs[n]);
    }
    assert hs[..|hs|] == hs;
  }

  method InsertHeight(q: seq<nat>, h: nat) returns (r: seq<nat>)
    requires Ascending(q)
    ensures Ascending(r) && multiset(r) == multiset(q) + multiset{h}
  {
    var at := 0;
    while at < |q| && q[at] < h
      invariant at <= |q|
      invariant forall i | 0 <= i < at :: q[i] < h
    {
      at := at + 1;
    }
    r := q[..at] + [h] + q[at..];
    assert q == q[..at] + q[at..];
    InsertedAscends(q, at, h);
    hide Ascending;
  }

  lemma InsertedAscends(q: seq<nat>, at: nat, h: nat)
    requires Ascending(q) && at <= |q|
    requires forall i | 0 <= i < at :: q[i] < h
    requires at < |q| ==> h <= q[at]
    ensures Ascending(q[..at] + [h] + q[at..])
  {
    var r := q[..at] + [h] + q[at..];
    forall i, j | 0 <= i < j < |r| ensures r[i] <= r[j] {
      var x, y := if i < at then i else i - 1, if j < at then j else j - 1;
      assert i != at ==> r[i] == q[x];
      assert j != at ==> r[j] == q[y];
      if i == at { assert q[at] <= q[y]; }
    }
  }

  // ---------- The height rows of one scid ----------

  /** Rows of m after count(h) more interactions of s at every height h. */
  ghost predicate Counted(before: map<ScidHeight, nat>, after: map<ScidHeight, nat>, s: Scid, count: multiset<nat>) {
    forall k: ScidHeight ::
      && (k in after <==> k in before || (k.scid == s && count[k.height] > 0))
      && (k in after ==> after[k] == GetOr(before, k, 0) + (if k.scid == s then count[k.height] else 0))
  }

  /** Groups the sorted heights into runs and adds each run's length to its row. */
  method CountHeights(bucket: map<ScidHeight, nat>, s: Scid, hs: seq<nat>) returns (after: map<ScidHeight, nat>)
    ensures Counted(bucket, after, s, multiset(hs))
  {
    var sorted := SortHeights(hs);
    assert Ascending(sorted);
    after := bucket;
    var i := 0;
    while i < |sorted|
      invariant i <= |sorted|
      invariant Counted(bucket, after, s, multiset(sorted[..i]))
      invariant forall x, y | 0 <= x < i <= y < |sorted| :: sorted[x] < sorted[y]
    {
      var h, count, j := sorted[i], 1, i + 1;
      while j < |sorted| && sorted[j] == h
        invariant i < j <= |sorted|
        invariant count == j - i
        invariant forall x | i <= x < j :: sorted[x] == h
      {
        j, count := j + 1, count + 1;
      }
      RunCount(sorted, i, j);
      var k := ScidHeight(s, h);
      if k in after {
        count := count + after[k];
      }
      after := after[k := count];
      i := j;
    }
    assert sorted[..|sorted|] == sorted;
  }

  /** A run [i, j) of one height adds j - i occurrences of that height and nothing else. */
  lemma {:induction false} RunCount(q: seq<nat>, i: nat, j: nat)
    requires i < j <= |q| && forall x | i <= x < j :: q[x] == q[i]
    ensures forall h: nat :: multiset(q[..j])[h] == multiset(q[..i])[h] + (if h == q[i] then j - i else 0)
    decreases j
  {
    assert q[..j] == q[..j - 1] + [q[j - 1]];
    if i + 1 < j {
      RunCount(q, i, j - 1);
    }
  }

  // ---------- Survivors ----------

  /** mergeAddrTouch: folds one touch into the survivors. */
  function MergeTouch(e: Option<AddrEntry>, h: nat): AddrEntry {
    match e
    case Some(x) => MergeEntry(x, Touched(h))
    case None => Touched(h)
  }

  lemma RollupInsert(ts: set<TouchKey>, t: TouchKey)
    requires t !in ts
    ensures Rollup(ts + {t}) == Some(MergeTouch(Rollup(ts), t.Height()))
  {
    HeightsOfInsert(ts, t);
    hide HeightsOf;
    MaxOfUnion(HeightsOf(ts), {t.Height()});
    if ts == {} {
      assert HeightsOf(ts) + {t.Height()} == {t.Height()};
    } else {
      MinOfInsert(HeightsOf(ts), t.Height());
    }
  }

  lemma HeightsOfInsert(ts: set<TouchKey>, t: TouchKey)
    ensures HeightsOf(ts + {t}) == HeightsOf(ts) + {t.Height()}
    ensures HeightsOf(ts) == {} <==> ts == {}
  {
    if u :| u in ts {
      assert u.Height() in HeightsOf(ts);
    }
  }

  /** The touches among `seen` that count for e: on it, at most h high, of an affected scid. */
  ghost function Counting(seen: set<TouchKey>, aff: set<Scid>, e: Edge, h: nat): set<TouchKey> {
    set t | t in seen && t.OnEdge() == e && t.Height() <= h && e.scid in aff
  }

  ghost predicate SurvivorsOf(m: map<Edge, AddrEntry>, seen: set<TouchKey>, aff: set<Scid>, h: nat) {
    forall e: Edge :: At(m, e) == Rollup(Counting(seen, aff, e, h))
  }

  /** One step of either scan: the touch is merged when it counts, skipped when it does not. */
  lemma SurvivorsStep(m: map<Edge, AddrEntry>, seen: set<TouchKey>, t: TouchKey, aff: set<Scid>, h: nat)
    requires SurvivorsOf(m, seen, aff, h) && t !in seen
    ensures t.OnEdge().scid in aff && t.Height() <= h ==>
              SurvivorsOf(m[t.OnEdge() := MergeTouch(At(m, t.OnEdge()), t.Height())], seen + {t}, aff, h)
    ensures !(t.OnEdge().scid in aff && t.Height() <= h) ==> SurvivorsOf(m, seen + {t}, aff, h)
  {
    hide Rollup;
    forall e: Edge
      ensures e == t.OnEdge() && e.scid in aff && t.Height() <= h ==>
              Counting(seen + {t}, aff, e, h) == Counting(seen, aff, e, h) + {t}
      ensures !(e == t.OnEdge() && e.scid in aff && t.Height() <= h) ==>
              Counting(seen + {t}, aff, e, h) == Counting(seen, aff, e, h)
    {
    }
    assert t !in Counting(seen, aff, t.OnEdge(), h);
    RollupInsert(Counting(seen, aff, t.OnEdge(), h), t);
    hide Counting;
  }

  method ScanInvokes(invokes: map<InvokeKey, Invocation>, aff: set<Scid>, h: nat) returns (m: map<Edge, AddrEntry>)
    ensures SurvivorsOf(m, (set k | k in invokes :: ByInvoke(k)), aff, h)
  {
    m := map[];
    ghost var seen: set<TouchKey> := {};
    var todo := invokes.Keys;
    assert SurvivorsOf(m, {}, aff, h) by { NoSurvivors(aff, h); }
    while todo != {}
      invariant todo <= invokes.Keys
      invariant seen == set k | k in invokes.Keys - todo :: ByInvoke(k)
      invariant SurvivorsOf(m, seen, aff, h)
      decreases |todo|
    {
      hide SurvivorsOf;
      var k :| k in todo;
      SurvivorsStep(m, seen, ByInvoke(k), aff, h);
      if k.scid in aff && k.height <= h {
        var e := Edge(k.sender, k.scid);
        m := m[e := MergeTouch(At(m, e), k.height)];
      }
      seen := seen + {ByInvoke(k)};
      todo := todo - {k};
    }
    assert invokes.Keys - todo == invokes.Keys;
  }

  lemma NoSurvivors(aff: set<Scid>, h: nat)
    ensures SurvivorsOf(map[], {}, aff, h)
  {
  }

  method ScanNormals(normTxs: map<NormKey, NormalTx>, start: map<Edge, AddrEntry>, ghost before: set<TouchKey>,
                     aff: set<Scid>, h: nat)
    returns (m: map<Edge, AddrEntry>)
    requires SurvivorsOf(start, before, aff, h) && forall t <- before :: t.ByInvoke?
    ensures SurvivorsOf(m, before + (set k | k in normTxs :: ByNormal(k)), aff, h)
  {
    m := start;
    ghost var seen := before;
    var todo := normTxs.Keys;
    while todo != {}
      invariant todo <= normTxs.Keys
      invariant seen == before + set k | k in normTxs.Keys - todo :: ByNormal(k)
      invariant SurvivorsOf(m, seen, aff, h)
      decreases |todo|
    {
      hide SurvivorsOf;
      var k :| k in todo;
      SurvivorsStep(m, seen, ByNormal(k), aff, h);
      if k.scid in aff && k.height <= h {
        var e := Edge(k.addr, k.scid);
        m := m[e := MergeTouch(At(m, e), k.height)];
      }
      seen := seen + {ByNormal(k)};
      todo := todo - {k};
    }
    assert normTxs.Keys - todo == normTxs.Keys;
  }

  ghost function Owned(installs: map<ScidHeight, InstallRecord>, ks: set<ScidHeight>, aff: set<Scid>, e: Edge,
      h: nat): set<nat> {
    set k | k in ks && k in installs && k.scid == e.scid && e.scid in aff && k.height <= h
        && installs[k].owner == e.addr && e.addr != "" :: k.height
  }

  /** The earliest owned install fills an edge the touches left empty. */
  ghost function Fill(touched: Option<AddrEntry>, owned: set<nat>): Option<AddrEntry> {
    if touched.Some? then touched
    else if owned != {} then Some(Touched(MinOf(owned)))
    else None
  }

  ghost predicate FilledBy(m: map<Edge, AddrEntry>, start: map<Edge, AddrEntry>,
                           installs: map<ScidHeight, InstallRecord>, ks: set<ScidHeight>, aff: set<Scid>, h: nat)
  {
    forall e: Edge :: At(m, e) == Fill(At(start, e), Owned(installs, ks, aff, e, h))
  }

  /** The next row of a height-ordered walk. */
  method LowestRow(ks: set<ScidHeight>) returns (k: ScidHeight)
    requires ks != {}
    ensures k in ks && forall j <- ks :: k.height <= j.height
  {
    k :| k in ks;
    var todo := ks - {k};
    while todo != {}
      invariant todo <= ks && k in ks
      invariant forall j <- ks - todo :: k.height <= j.height
      decreases |todo|
    {
      var j :| j in todo;
      if j.height < k.height {
        k := j;
      }
      todo := todo - {j};
    }
    assert ks - todo == ks;
  }

  lemma OwnedStep(installs: map<ScidHeight, InstallRecord>, done: set<ScidHeight>, k: ScidHeight, aff: set<Scid>,
      x: Edge, h: nat)
    requires k in installs
    ensures var e := Edge(installs[k].owner, k.scid);
            Owned(installs, done + {k}, aff, x, h) ==
            Owned(installs, done, aff, x, h) + (if x == e && k.height <= h && k.scid in aff && e.addr != ""
                then {k.height} else {})
  {
  }

  lemma FillStep(m: map<Edge, AddrEntry>, start: map<Edge, AddrEntry>, installs: map<ScidHeight, InstallRecord>,
                 done: set<ScidHeight>, k: ScidHeight, aff: set<Scid>, h: nat)
    requires FilledBy(m, start, installs, done, aff, h)
    requires k in installs && forall j <- done :: j.height <= k.height
    ensures var e := Edge(installs[k].owner, k.scid);
            if k.height <= h && k.scid in aff && e.addr != "" && e !in m then
              FilledBy(m[e := Touched(k.height)], start, installs, done + {k}, aff, h)
            else FilledBy(m, start, installs, done + {k}, aff, h)
  {
    var e := Edge(installs[k].owner, k.scid);
    forall x: Edge
      ensures Fill(At(start, x), Owned(installs, done + {k}, aff, x, h)) ==
              if x == e && k.height <= h && k.scid in aff && e.addr != "" && e !in m then Some(Touched(k.height))
                  else At(m, x)
    {
      FillStepAt(m, start, installs, done, k, aff, h, x);
    }
    hide Owned, Fill;
  }

  lemma FillStepAt(m: map<Edge, AddrEntry>, start: map<Edge, AddrEntry>, installs: map<ScidHeight, InstallRecord>,
                   done: set<ScidHeight>, k: ScidHeight, aff: set<Scid>, h: nat, x: Edge)
    requires At(m, x) == Fill(At(start, x), Owned(installs, done, aff, x, h))
    requires k in installs && forall j <- done :: j.height <= k.height
    ensures var e := Edge(installs[k].owner, k.scid);
            Fill(At(start, x), Owned(installs, done + {k}, aff, x, h)) ==
            if x == e && k.height <= h && k.scid in aff && e.addr != "" && e !in m then Some(Touched(k.height))
                else At(m, x)
  {
    var before := Owned(installs, done, aff, x, h);
    assert forall y <- before :: y <= k.height;
    OwnedStep(installs, done, k, aff, x, h);
    hide Owned;
    FirstStays(before, k.height);
    assert before + {} == before;
  }

  /** Adding a later height does not move the minimum, and a lone height is its own minimum. */
  lemma FirstStays(hs: set<nat>, h: nat)
    requires forall x <- hs :: x <= h
    ensures hs != {} ==> MinOf(hs + {h}) == MinOf(hs)
    ensures hs == {} ==> hs + {h} == {h} && MinOf(hs + {h}) == h
  {
    if hs != {} {
      MinOfInsert(hs, h);
    }
  }

  /** The installs bucket is walked in height order; its rows above h end the walk. */
  method ScanInstalls(installs: map<ScidHeight, InstallRecord>, start: map<Edge, AddrEntry>, aff: set<Scid>, h: nat)
    returns (m: map<Edge, AddrEntry>)
    ensures FilledBy(m, start, installs, installs.Keys, aff, h)
  {
    m := start;
    var todo := installs.Keys;
    assert FilledBy(m, start, installs, {}, aff, h) by { NothingFilled(start, installs, aff, h); }
    assert installs.Keys - todo == {};
    while todo != {}
      invariant todo <= installs.Keys
      invariant FilledBy(m, start, installs, installs.Keys - todo, aff, h)
      invariant forall j, k | j in installs.Keys - todo && k in todo :: j.height <= k.height
      decreases |todo|
    {
      hide FilledBy;
      var k := LowestRow(todo);
      FillStep(m, start, installs, installs.Keys - todo, k, aff, h);
      assert (installs.Keys - todo) + {k} == installs.Keys - (todo - {k});
      if k.height > h {
        RestAbove(m, start, installs, installs.Keys - todo, aff, h);
        break;
      }
      var e := Edge(installs[k].owner, k.scid);
      if k.scid in aff && e.addr != "" && e !in m {
        m := m[e := Touched(k.height)];
      }
      todo := todo - {k};
    }
    if todo == {} {
      assert installs.Keys - todo == installs.Keys;
    }
  }

  lemma NothingFilled(start: map<Edge, AddrEntry>, installs: map<ScidHeight, InstallRecord>, aff: set<Scid>, h: nat)
    ensures FilledBy(start, start, installs, {}, aff, h)
  {
    assert forall e: Edge :: Owned(installs, {}, aff, e, h) == {};
  }

  lemma RestAbove(m: map<Edge, AddrEntry>, start: map<Edge, AddrEntry>, installs: map<ScidHeight, InstallRecord>,
                  done: set<ScidHeight>, aff: set<Scid>, h: nat)
    requires FilledBy(m, start, installs, done, aff, h)
    requires done <= installs.Keys && forall k | k in installs && k !in done :: k.height > h
    ensures FilledBy(m, start, installs, installs.Keys, aff, h)
  {
    assert forall e: Edge :: Owned(installs, done, aff, e, h) == Owned(installs, installs.Keys, aff, e, h);
    hide Owned;
  }

  /** The three scans together recompute exactly the survivors of the affected scids. */
  lemma ScansAreSurvivors(db: Db, h: nat, start: map<Edge, AddrEntry>, m: map<Edge, AddrEntry>, e: Edge)
    requires SurvivorsOf(start, TouchesOf(db), Affected(db, h), h)
    requires FilledBy(m, start, db.installs, db.installs.Keys, Affected(db, h), h)
    requires e.scid in Affected(db, h)
    ensures At(m, e) == Survivor(db, e, h)
  {
    hide Affected, TouchesOf, Rollup;
    assert Counting(TouchesOf(db), Affected(db, h), e, h) == TouchesUpTo(db, e, h);
    assert Owned(db.installs, db.installs.Keys, Affected(db, h), e, h) == OwnerInstalls(db, e, h);
    RollupSome(TouchesUpTo(db, e, h));
    hide TouchesUpTo, OwnerInstalls, Owned, Counting;
    assert At(start, e) == Rollup(TouchesUpTo(db, e, h));
  }

  lemma RollupSome(ts: set<TouchKey>)
    ensures Rollup(ts).Some? <==> ts != {}
  {
  }

  // ---------- The buckets FlushBatch merges into ----------

  /** Owners, counting the scids the bucket did not have yet. */
  method PutOwners(bucket: map<Scid, Addr>, add: map<Scid, Addr>) returns (after: map<Scid, Addr>, added: nat)
    ensures after == bucket + add && added == NewOwners(bucket, add)
  {
    hide NewOwners, PartOf;
    after, added := bucket, 0;
    var todo := add.Keys;
    ghost var done: map<Scid, Addr> := map[];
    NoNewOwners(bucket, done);
    NothingOf(done, add);
    while todo != {}
      invariant PartOf(done, add, todo) && todo <= add.Keys
      invariant after == bucket + done && added == NewOwners(bucket, done)
      decreases |todo|
    {
      var s :| s in todo;
      OneMoreOf(done, add, todo, s);
      OneMoreOwner(bucket, done, s, add[s]);
      if s !in after {
        added := added + 1;
      }
      after, done, todo := after[s := add[s]], done[s := add[s]], todo - {s};
    }
    WholeOf(done, add);
  }

  /** `done` is the part of `add` that is no longer to do. */
  ghost predicate PartOf<K(!new), V>(done: map<K, V>, add: map<K, V>, todo: set<K>) {
    && todo <= add.Keys
    && (forall k :: k in done <==> k in add && k !in todo)
    && (forall k <- done :: done[k] == add[k])
  }

  lemma WholeOf<K(!new), V>(done: map<K, V>, add: map<K, V>)
    requires PartOf(done, add, {})
    ensures done == add
  {
  }

  lemma NothingOf<K(!new), V>(done: map<K, V>, add: map<K, V>)
    requires done == map[]
    ensures PartOf(done, add, add.Keys)
  {
  }

  lemma OneMoreOf<K(!new), V>(done: map<K, V>, add: map<K, V>, todo: set<K>, k: K)
    requires PartOf(done, add, todo) && k in todo
    ensures k in add && k !in done && PartOf(done[k := add[k]], add, todo - {k})
  {
  }

  lemma NoNewOwners(bucket: map<Scid, Addr>, none: map<Scid, Addr>)
    requires none == map[]
    ensures NewOwners(bucket, none) == 0 && bucket + none == bucket
  {
    assert none.Keys - bucket.Keys == {};
  }

  lemma OneMoreOwner(bucket: map<Scid, Addr>, done: map<Scid, Addr>, s: Scid, o: Addr)
    requires s !in done
    ensures NewOwners(bucket, done[s := o]) == NewOwners(bucket, done) + (if s in bucket then 0 else 1)
    ensures bucket + done[s := o] == (bucket + done)[s := o]
    ensures s in bucket + done <==> s in bucket
  {
    hide NewOwners;
    assert done + map[s := o] == done[s := o];
    NewOwnersTwice(bucket, done, map[s := o]);
    OneOwner(bucket + done, s, o);
  }

  lemma OneOwner(m: map<Scid, Addr>, s: Scid, o: Addr)
    ensures NewOwners(m, map[s := o]) == if s in m then 0 else 1
  {
    var one := map[s := o];
    assert one.Keys - m.Keys == if s in m then {} else {s};
  }

  /** addSCIDCountStat: with no row to bump, the owners bucket is counted. */
  method AddScidCount(scCount: Option<int>, owners: map<Scid, Addr>, delta: nat) returns (after: Option<int>)
    ensures after == if delta == 0 then scCount
                     else if scCount.Some? then Some(scCount.value + delta) else Some(|owners|)
  {
    if delta == 0 {
      return scCount;
    }
    if scCount.Some? {
      return Some(scCount.value + delta);
    }
    var total := 0;
    var todo := owners.Keys;
    while todo != {}
      invariant todo <= owners.Keys && total + |todo| == |owners.Keys|
      decreases |todo|
    {
      var s :| s in todo;
      total, todo := total + 1, todo - {s};
    }
    assert |owners| == |owners.Keys|;
    after := Some(total);
  }

  method AppendInvocations(bucket: map<InvokeKey, Invocation>, invs: seq<Invocation>)
      returns (after: map<InvokeKey, Invocation>)
    ensures after == PutInvocations(bucket, invs)
  {
    after := bucket;
    for i := 0 to |invs|
      invariant after == PutInvocations(bucket, invs[..i])
    {
      assert invs[..i + 1][..i] == invs[..i];
      if invs[i].scid == "" {
        continue;
      }
      after := after[KeyOfInvocation(invs[i]) := invs[i]];
    }
    assert invs[..|invs|] == invs;
  }

  /** putLatestSCVarsHeight: upserts, never lowers. */
  function PutLatest(latest: map<Scid, nat>, s: Scid, h: nat): map<Scid, nat> {
    if s == "" || h == 0 then latest
    else if s in latest && latest[s] >= h then latest
    else latest[s := h]
  }

  lemma RunRaises(latest: map<Scid, nat>, run: set<ScidHeight>, s: Scid, h: nat)
    requires forall k <- run :: k.scid == s && k.height <= h
    requires ScidHeight(s, h) in run
    ensures PutLatest(latest, s, h) == RaiseLatest(latest, run)
  {
    assert h in SnapshotHeights(run, s);
    assert forall x <- SnapshotHeights(run, s) :: x <= h;
    assert forall t: Scid :: t != s ==> SnapshotHeights(run, t) == {};
  }

  /** Writes one scid's snapshots in height order and reports the last. */
  method PutRun(bucket: map<ScidHeight, Variables>, add: map<ScidHeight, Variables>, run: set<ScidHeight>)
    returns (scvars: map<ScidHeight, Variables>, last: ScidHeight)
    requires run != {} && run <= add.Keys
    ensures scvars == bucket + Restrict(add, run)
    ensures last in run && forall k <- run :: k.height <= last.height
  {
    scvars := bucket;
    last := LowestRow(run);
    var rest := run;
    while rest != {}
      invariant rest <= run && last in run
      invariant forall k <- rest :: last.height <= k.height
      invariant forall k <- run - rest :: k.height <= last.height
      invariant scvars == bucket + Restrict(add, run - rest)
      decreases |rest|
    {
      hide Restrict;
      last := LowestRow(rest);
      RestrictOne(bucket, add, run - rest, last);
      assert (run - rest) + {last} == run - (rest - {last});
      scvars := scvars[last := add[last]];
      rest := rest - {last};
    }
    assert run - rest == run;
  }

  /** Snapshots go in scid by scid in height order; each scid's last height raises its pointer. */
  method PutSnapshots(bucket: map<ScidHeight, Variables>, pointers: map<Scid, nat>, add: map<ScidHeight, Variables>)
    returns (scvars: map<ScidHeight, Variables>, latest: map<Scid, nat>)
    ensures scvars == bucket + add && latest == RaiseLatest(pointers, add.Keys)
  {
    hide RaiseLatest, Restrict, PutLatest;
    scvars, latest := bucket, pointers;
    var todo := add.Keys;
    ghost var done: set<ScidHeight> := {};
    EmptyRaise(pointers);
    RestrictEnds(bucket, add);
    while todo != {}
      invariant done == add.Keys - todo && todo <= add.Keys
      invariant scvars == bucket + Restrict(add, done)
      invariant latest == RaiseLatest(pointers, done)
      decreases |todo|
    {
      var first :| first in todo;
      var run := set k | k in todo && k.scid == first.scid;
      assert first in run;
      var last;
      scvars, last := PutRun(scvars, add, run);
      RunRaises(latest, run, first.scid, last.height);
      RaiseLatestTwice(pointers, done, run);
      latest := PutLatest(latest, first.scid, last.height);
      RestrictMore(bucket, add, done, run);
      done, todo := done + run, todo - run;
    }
    assert done == add.Keys;
  }

  lemma RestrictEnds<K, V>(bucket: map<K, V>, add: map<K, V>)
    ensures bucket + Restrict(add, {}) == bucket && Restrict(add, add.Keys) == add
  {
  }

  lemma RestrictOne<K, V>(bucket: map<K, V>, add: map<K, V>, done: set<K>, k: K)
    requires k in add
    ensures bucket + Restrict(add, done + {k}) == (bucket + Restrict(add, done))[k := add[k]]
  {
  }

  lemma RestrictMore<K, V>(bucket: map<K, V>, add: map<K, V>, done: set<K>, run: set<K>)
    ensures (bucket + Restrict(add, done)) + Restrict(add, run) == bucket + Restrict(add, done + run)
  {
  }

  lemma NothingCounted(m: map<ScidHeight, nat>)
    ensures AddHeights(m, map[]) == m
  {
    EmptyHeights(m);
  }

  lemma CountedScid(before: map<ScidHeight, nat>, mid: map<ScidHeight, nat>, after: map<ScidHeight, nat>,
                    add: map<Scid, seq<nat>>, done: set<Scid>, s: Scid)
    requires s in add && s !in done && mid == AddHeights(before, Restrict(add, done))
    requires Counted(mid, after, s, multiset(add[s]))
    ensures after == AddHeights(before, Restrict(add, done + {s}))
  {
    hide AddHeights, Counted;
    forall k: ScidHeight
      ensures k in after <==> k in AddHeights(before, Restrict(add, done + {s}))
      ensures k in after ==> after[k] == AddHeights(before, Restrict(add, done + {s}))[k]
    {
      CountedAt(mid, after, s, multiset(add[s]), k);
      AddHeightsAt(before, Restrict(add, done), k);
      AddHeightsAt(before, Restrict(add, done + {s}), k);
    }
  }

  lemma CountedAt(before: map<ScidHeight, nat>, after: map<ScidHeight, nat>, s: Scid, count: multiset<nat>,
      k: ScidHeight)
    requires Counted(before, after, s, count)
    ensures k in after <==> k in before || (k.scid == s && count[k.height] > 0)
    ensures k in after ==> after[k] == GetOr(before, k, 0) + (if k.scid == s then count[k.height] else 0)
  {
  }

  method PutHeights(bucket: map<ScidHeight, nat>, add: map<Scid, seq<nat>>) returns (after: map<ScidHeight, nat>)
    ensures after == AddHeights(bucket, add)
  {
    after := bucket;
    var todo := add.Keys;
    assert Restrict(add, add.Keys - todo) == map[];
    NothingCounted(bucket);
    while todo != {}
      invariant todo <= add.Keys
      invariant after == AddHeights(bucket, Restrict(add, add.Keys - todo))
      decreases |todo|
    {
      hide AddHeights, Counted;
      var s :| s in todo;
      ghost var mid := after;
      after := CountHeights(after, s, add[s]);
      CountedScid(bucket, mid, after, add, add.Keys - todo, s);
      assert (add.Keys - todo) + {s} == add.Keys - (todo - {s});
      todo := todo - {s};
    }
    assert Restrict(add, add.Keys - todo) == add;
  }

  /**
   Normal txs are sorted by address only, so records of one address go in an order the sort
   leaves open: any arrangement of the batch.
   */
  method PutNormalTxs(bucket: map<NormKey, NormalTx>, add: seq<NormalTxRef>)
    returns (after: map<NormKey, NormalTx>, ghost order: seq<NormalTxRef>)
    ensures multiset(order) == multiset(add) && after == PutNormals(bucket, order)
  {
    after, order := bucket, [];
    var rest := add;
    while rest != []
      invariant multiset(order) + multiset(rest) == multiset(add)
      invariant after == PutNormals(bucket, order)
      decreases |rest|
    {
      var i :| 0 <= i < |rest|;
      PutOneNormal(bucket, order, rest[i]);
      after := after[KeyOfNormal(rest[i]) := rest[i].tx];
      order := order + [rest[i]];
      ghost var was := rest;
      rest := rest[..i] + rest[i + 1..];
      TakeOut(was, i);
      hide PutNormals;
    }
  }

  lemma PutOneNormal(bucket: map<NormKey, NormalTx>, order: seq<NormalTxRef>, e: NormalTxRef)
    ensures PutNormals(bucket, order + [e]) == PutNormals(bucket, order)[KeyOfNormal(e) := e.tx]
  {
    assert (order + [e])[..|order|] == order;
  }

  lemma TakeOut<T>(q: seq<T>, i: nat)
    requires i < |q|
    ensures multiset(q[..i] + q[i + 1..]) + multiset([q[i]]) == multiset(q)
  {
    assert q == q[..i] + [q[i]] + q[i + 1..];
  }

  /** Equal keys carry equal records: one transaction pays one fee. */
  ghost predicate Consistent(es: seq<NormalTxRef>) {
    forall x, y | x in es && y in es && KeyOfNormal(x) == KeyOfNormal(y) :: x.tx == y.tx
  }

  lemma {:induction false} PutNormalsAt(m: map<NormKey, NormalTx>, es: seq<NormalTxRef>, k: NormKey)
    requires Consistent(es)
    ensures k in PutNormals(m, es) <==> k in m || exists e <- es :: KeyOfNormal(e) == k
    ensures forall e <- es :: KeyOfNormal(e) == k ==> k in PutNormals(m, es) && PutNormals(m, es)[k] == e.tx
    ensures (forall e <- es :: KeyOfNormal(e) != k) && k in m ==> PutNormals(m, es)[k] == m[k]
  {
    if es != [] {
      var init, last := es[..|es| - 1], es[|es| - 1];
      assert es == init + [last];
      PutNormalsAt(m, init, k);
    }
  }

  /** With consistent records the order does not matter. */
  lemma OrderIsInvisible(m: map<NormKey, NormalTx>, x: seq<NormalTxRef>, y: seq<NormalTxRef>)
    requires Consistent(y) && multiset(x) == multiset(y)
    ensures PutNormals(m, x) == PutNormals(m, y)
  {
    assert forall e :: e in x <==> e in multiset(x);
    assert forall e :: e in y <==> e in multiset(y);
    forall k: NormKey
      ensures k in PutNormals(m, x) <==> k in PutNormals(m, y)
      ensures k in PutNormals(m, x) ==> PutNormals(m, x)[k] == PutNormals(m, y)[k]
    {
      PutNormalsAt(m, x, k);
      PutNormalsAt(m, y, k);
    }
  }

  /** Class records: drop the scid's old row when it moves, then write both buckets. */
  method PutClasses(idx0: map<Scid, ClassMeta>, rows0: map<ClassKey, ClassMeta>, add: map<Scid, ClassMeta>)
    returns (idx: map<Scid, ClassMeta>, rows: map<ClassKey, ClassMeta>)
    ensures idx == idx0 + NonEmptyClasses(add)
    ensures rows == PutClassRows(rows0, idx0, NonEmptyClasses(add))
  {
    hide PutClassRows, NamedPart, NonEmptyClasses;
    idx, rows := idx0, rows0;
    var todo := add.Keys;
    ghost var done: map<Scid, ClassMeta> := map[];
    EmptyRows(rows0, idx0);
    assert idx0 + done == idx0;
    NamedNothing(done, add);
    while todo != {}
      invariant todo <= add.Keys
      invariant NamedPart(done, add, todo)
      invariant idx == idx0 + done
      invariant rows == PutClassRows(rows0, idx0, done)
      decreases |todo|
    {
      var s :| s in todo;
      NamedOneMore(done, add, todo, s);
      todo := todo - {s};
      var meta := add[s];
      if meta.className == "" {
        continue;
      }
      PutOneClass(rows0, idx0, done, s, meta);
      if s in idx && RowOf(s, idx[s]) != RowOf(s, meta) {
        rows := rows - {RowOf(s, idx[s])};
      }
      rows := rows[RowOf(s, meta) := meta];
      idx := idx[s := meta];
      done := done[s := meta];
    }
    NamedWhole(done, add);
  }

  ghost predicate NamedPart(done: map<Scid, ClassMeta>, add: map<Scid, ClassMeta>, todo: set<Scid>) {
    && (forall s :: s in done <==> s in add && s !in todo && add[s].className != "")
    && (forall s <- done :: done[s] == add[s])
  }

  lemma NamedNothing(done: map<Scid, ClassMeta>, add: map<Scid, ClassMeta>)
    requires done == map[]
    ensures NamedPart(done, add, add.Keys)
  {
  }

  lemma NamedOneMore(done: map<Scid, ClassMeta>, add: map<Scid, ClassMeta>, todo: set<Scid>, s: Scid)
    requires NamedPart(done, add, todo) && s in todo && s in add
    ensures s !in done
    ensures NamedPart(if add[s].className == "" then done else done[s := add[s]], add, todo - {s})
  {
  }

  lemma NamedWhole(done: map<Scid, ClassMeta>, add: map<Scid, ClassMeta>)
    requires NamedPart(done, add, {})
    ensures done == NonEmptyClasses(add)
  {
  }

  lemma PutOneClass(rows: map<ClassKey, ClassMeta>, idx: map<Scid, ClassMeta>, done: map<Scid, ClassMeta>, s: Scid,
      meta: ClassMeta)
    requires s !in done
    ensures idx + done[s := meta] == (idx + done)[s := meta]
    ensures var mid := PutClassRows(rows, idx, done);
            var cut := if s in idx && RowOf(s, idx[s]) != RowOf(s, meta) then mid - {RowOf(s, idx[s])} else mid;
            PutClassRows(rows, idx, done[s := meta]) == cut[RowOf(s, meta) := meta]
  {
    hide PutClassRows;
    var mid := PutClassRows(rows, idx, done);
    var cut := if s in idx && RowOf(s, idx[s]) != RowOf(s, meta) then mid - {RowOf(s, idx[s])} else mid;
    var one, two := PutClassRows(rows, idx, done[s := meta]), cut[RowOf(s, meta) := meta];
    forall k: ClassKey ensures (k in one <==> k in two) && (k in one ==> one[k] == two[k]) {
      PutClassRowsAt(rows, idx, done, k);
      PutClassRowsAt(rows, idx, done[s := meta], k);
    }
  }

  method PutCodes(bucket: map<Scid, CodeEntry>, add: map<Scid, CodeEntry>) returns (after: map<Scid, CodeEntry>)
    ensures after == bucket + NonEmptyCodes(add)
  {
    hide PartOf;
    after := bucket;
    var todo := add.Keys;
    ghost var done: map<Scid, CodeEntry> := map[];
    NothingOf(done, add);
    while todo != {}
      invariant PartOf(done, add, todo)
      invariant after == bucket + NonEmptyCodes(done)
      decreases |todo|
    {
      hide NonEmptyCodes;
      var s :| s in todo;
      OneMoreOf(done, add, todo, s);
      OneMoreCode(bucket, done, s, add[s]);
      if add[s].code != "" {
        after := after[s := add[s]];
      }
      done, todo := done[s := add[s]], todo - {s};
    }
    WholeOf(done, add);
  }

  lemma OneMoreCode(bucket: map<Scid, CodeEntry>, done: map<Scid, CodeEntry>, s: Scid, entry: CodeEntry)
    requires s !in done
    ensures var before := bucket + NonEmptyCodes(done);
            bucket + NonEmptyCodes(done[s := entry]) == if entry.code == "" then before else before[s := entry]
  {
  }

  method PutOwnerScids(bucket: set<OwnerEdge>, add: map<Addr, set<Scid>>) returns (after: set<OwnerEdge>)
    ensures after == bucket + NonEmptyOwners(EdgesOf(add))
  {
    after := bucket;
    var todo := add.Keys;
    while todo != {}
      invariant todo <= add.Keys
      invariant after == bucket + set o, s | o in add && o !in todo && o != "" && s in add[o] :: OwnerEdge(o, s)
      decreases |todo|
    {
      var o :| o in todo;
      todo := todo - {o};
      if o == "" {
        continue;
      }
      ghost var before := after;
      var scids := add[o];
      while scids != {}
        invariant scids <= add[o]
        invariant after == before + set s | s in add[o] && s !in scids :: OwnerEdge(o, s)
        decreases |scids|
      {
        var s :| s in scids;
        after, scids := after + {OwnerEdge(o, s)}, scids - {s};
      }
    }
  }

  method PutEdges(bucket: map<Edge, AddrEntry>, add: map<Edge, AddrEntry>) returns (after: map<Edge, AddrEntry>)
    ensures after == MergeEdges(bucket, add)
  {
    after := bucket;
    var todo := add.Keys;
    ghost var done: map<Edge, AddrEntry> := map[];
    EdgesEmpty(bucket);
    while todo != {}
      invariant PartOf(done, add, todo)
      invariant after == MergeEdges(bucket, done)
      decreases |todo|
    {
      hide MergeEdges;
      var e :| e in todo;
      PutOneEdge(bucket, done, e, add[e]);
      var merged := add[e];
      if e in after {
        merged := MergeEntry(after[e], add[e]);
      }
      after, done, todo := after[e := merged], done[e := add[e]], todo - {e};
    }
    WholeOf(done, add);
  }

  lemma PutOneEdge(bucket: map<Edge, AddrEntry>, done: map<Edge, AddrEntry>, e: Edge, delta: AddrEntry)
    requires e !in done
    ensures var mid := MergeEdges(bucket, done);
            MergeEdges(bucket, done[e := delta]) == mid[e := if e in mid then MergeEntry(mid[e], delta) else delta]
  {
  }

  // ---------- Class listing ----------

  datatype ClassInstall = ClassInstall(scid: Scid, installHeight: nat, meta: ClassMeta)

  /** `inst` is the highest row of its scid in the class. */
  ghost predicate IsHighestRow(rows: map<ClassKey, ClassMeta>, className: string, inst: ClassInstall) {
    && ClassKey(className, inst.installHeight, inst.scid) in rows
    && rows[ClassKey(className, inst.installHeight, inst.scid)] == inst.meta
    && forall k <- rows :: k.className == className && k.scid == inst.scid ==> k.height <= inst.installHeight
  }

  /** One pass over the class rows keeps each scid's highest row. */
  method HighestRows(rows: map<ClassKey, ClassMeta>, className: string) returns (latest: map<Scid, ClassInstall>)
    ensures forall k <- rows :: k.className == className ==> k.scid in latest
    ensures forall s <- latest :: latest[s].scid == s && IsHighestRow(rows, className, latest[s])
  {
    latest := map[];
    var todo := rows.Keys;
    while todo != {}
      invariant todo <= rows.Keys
      invariant forall k <- rows.Keys - todo :: k.className == className ==>
                  k.scid in latest && k.height <= latest[k.scid].installHeight
      invariant forall s <- latest :: latest[s].scid == s
      invariant forall s <- latest :: var k := ClassKey(className, latest[s].installHeight, s);
                  k in rows && rows[k] == latest[s].meta
      decreases |todo|
    {
      var k :| k in todo;
      todo := todo - {k};
      if k.className == className && (k.scid !in latest || k.height > latest[k.scid].installHeight) {
        latest := latest[k.scid := ClassInstall(k.scid, k.height, rows[k])];
      }
    }
  }

  method Oldest(m: map<Scid, ClassInstall>) returns (s: Scid)
    requires m != map[]
    ensures s in m && forall t <- m :: m[s].installHeight <= m[t].installHeight
  {
    assert m.Keys != {};
    s :| s in m.Keys;
    var todo := m.Keys;
    while todo != {}
      invariant todo <= m.Keys && s in m
      invariant forall t <- m.Keys - todo :: m[s].installHeight <= m[t].installHeight
      decreases |todo|
    {
      var t :| t in todo;
      if m[t].installHeight < m[s].installHeight {
        s := t;
      }
      todo := todo - {t};
    }
    assert m.Keys - todo == m.Keys;
  }

  ghost predicate HeightOrdered(q: seq<ClassInstall>) {
    forall i, j | 0 <= i < j < |q| :: q[i].installHeight <= q[j].installHeight && q[i].scid != q[j].scid
  }

  lemma EmptyOrdered()
    ensures HeightOrdered([])
  {
  }

  lemma OneMoreOrdered(q: seq<ClassInstall>, x: ClassInstall)
    requires HeightOrdered(q) && forall y <- q :: y.installHeight <= x.installHeight && y.scid != x.scid
    ensures HeightOrdered(q + [x])
  {
  }

  lemma FirstOrdered(q: seq<ClassInstall>, n: nat)
    requires HeightOrdered(q) && n <= |q|
    ensures HeightOrdered(q[..n]) && forall x <- q[..n], y <- q :: y in q[..n] || x.installHeight <= y.installHeight
  {
    forall x, y | x in q[..n] && y in q && y !in q[..n] ensures x.installHeight <= y.installHeight {
      var i :| 0 <= i < n && q[..n][i] == x;
      var j :| 0 <= j < |q| && q[j] == y;
      assert j < n ==> q[..n][j] == y;
      assert q[i] == x;
    }
  }

  /** Emits the map's entries oldest first; equal heights come in any order. */
  method InHeightOrder(m: map<Scid, ClassInstall>) returns (out: seq<ClassInstall>)
    requires forall s <- m :: m[s].scid == s
    ensures HeightOrdered(out)
    ensures forall x <- out :: x.scid in m && m[x.scid] == x
    ensures forall s <- m :: m[s] in out
  {
    out := [];
    var rest := m;
    hide HeightOrdered;
    assert HeightOrdered([]) by { EmptyOrdered(); }
    while rest != map[]
      invariant forall s <- rest :: s in m && rest[s] == m[s]
      invariant HeightOrdered(out)
      invariant forall x <- out :: x.scid in m && m[x.scid] == x && x.scid !in rest
      invariant forall s <- m :: s in rest || m[s] in out
      invariant forall x, s | x in out && s in rest :: x.installHeight <= rest[s].installHeight
      decreases |rest.Keys|
    {
      var s := Oldest(rest);
      assert (rest - {s}).Keys == rest.Keys - {s};
      OneMoreOrdered(out, rest[s]);
      out := out + [rest[s]];
      rest := rest - {s};
    }
  }

  // ---------- Truncation, bucket by bucket ----------

  /** applyAddrSCIDRollback: an affected edge takes its survivor's entry or goes. */
  method ApplyRollback(bucket: map<Edge, AddrEntry>, aff: set<Scid>, survivors: map<Edge, AddrEntry>)
    returns (after: map<Edge, AddrEntry>)
    ensures forall e: Edge :: At(after, e) ==
              if e !in bucket then None else if e.scid in aff then At(survivors, e) else Some(bucket[e])
  {
    after := bucket;
    var todo := bucket.Keys;
    while todo != {}
      invariant todo <= bucket.Keys
      invariant forall e <- todo :: e in after && after[e] == bucket[e]
      invariant forall e: Edge | e !in todo :: At(after, e) ==
                  if e !in bucket then None else if e.scid in aff then At(survivors, e) else Some(bucket[e])
      decreases |todo|
    {
      var e :| e in todo;
      todo := todo - {e};
      if e.scid !in aff {
        continue;
      }
      if e in survivors {
        after := after[e := survivors[e]];
      } else {
        after := after - {e};
      }
    }
  }

  lemma RollbackIsTruncated(db: Db, h: nat, survivors: map<Edge, AddrEntry>, after: map<Edge, AddrEntry>)
    requires forall e: Edge :: e.scid in Affected(db, h) ==> At(survivors, e) == Survivor(db, e, h)
    requires forall e: Edge :: At(after, e) ==
               if e !in db.addrScids then None
               else if e.scid in Affected(db, h) then At(survivors, e) else Some(db.addrScids[e])
    ensures after == TruncatedEdges(db, h)
  {
    hide Affected, Survivor, TruncatedEdges;
    forall e: Edge
      ensures e in after <==> e in TruncatedEdges(db, h)
      ensures e in after ==> after[e] == TruncatedEdges(db, h)[e]
    {
      TruncatedAt(db, h, e);
      assert At(after, e) == At(TruncatedEdges(db, h), e);
    }
  }

  /** maxSurvivingScVarsHeight: 0 when the scid keeps no positive snapshot at or below h. */
  method MaxSurviving(scvars: map<ScidHeight, Variables>, s: Scid, h: nat) returns (maxH: nat)
    ensures maxH == MaxOf(set k | k in scvars && k.scid == s && k.height <= h :: k.height)
  {
    maxH := 0;
    var todo := scvars.Keys;
    ghost var seen: set<nat> := {};
    while todo != {}
      invariant todo <= scvars.Keys
      invariant seen == set k | k in scvars.Keys - todo && k.scid == s && k.height <= h :: k.height
      invariant maxH == MaxOf(seen)
      decreases |todo|
    {
      var k :| k in todo;
      if k.scid == s && k.height <= h {
        MaxOfUnion(seen, {k.height});
        if k.height > maxH {
          maxH := k.height;
        }
        seen := seen + {k.height};
      }
      todo := todo - {k};
    }
    assert seen == set k | k in scvars && k.scid == s && k.height <= h :: k.height;
  }

  /** Every affected pointer is rewritten raw, since putLatestSCVarsHeight would refuse to lower it. */
  method LowerPointers(pointers: map<Scid, nat>, scvars: map<ScidHeight, Variables>, aff: set<Scid>, h: nat)
    returns (after: map<Scid, nat>)
    ensures forall s: Scid :: GetOr(after, s, 0) == if s in aff then KeptSnapshot(scvars, s, h)
            else GetOr(pointers, s, 0)
    ensures forall s: Scid :: s in after <==> if s in aff then KeptSnapshot(scvars, s, h) > 0 else s in pointers
  {
    after := pointers;
    var todo := aff;
    while todo != {}
      invariant todo <= aff
      invariant forall s: Scid :: GetOr(after, s, 0) ==
                  if s in aff && s !in todo then KeptSnapshot(scvars, s, h) else GetOr(pointers, s, 0)
      invariant forall s: Scid :: s in after <==>
                  if s in aff && s !in todo then KeptSnapshot(scvars, s, h) > 0 else s in pointers
      decreases |todo|
    {
      var s :| s in todo;
      var maxH := MaxSurviving(scvars, s, h);
      if maxH == 0 {
        after := after - {s};
      } else {
        after := after[s := maxH];
      }
      todo := todo - {s};
      hide KeptSnapshot;
    }
  }

  lemma PointersAreLowered(pointers: map<Scid, nat>, scvars: map<ScidHeight, Variables>, aff: set<Scid>, h: nat,
      after: map<Scid, nat>)
    requires forall s: Scid :: GetOr(after, s, 0) == if s in aff then KeptSnapshot(scvars, s, h)
             else GetOr(pointers, s, 0)
    requires forall s: Scid :: s in after <==> if s in aff then KeptSnapshot(scvars, s, h) > 0 else s in pointers
    ensures after == LoweredLatest(pointers, scvars, aff, h)
  {
    hide KeptSnapshot;
    var lowered := LoweredLatest(pointers, scvars, aff, h);
    forall s: Scid ensures (s in after <==> s in lowered) && (s in after ==> after[s] == lowered[s]) {
      assert GetOr(after, s, 0) == if s in aff then KeptSnapshot(scvars, s, h) else GetOr(pointers, s, 0);
    }
  }

  method DropHashes(m: map<nat, Hash>, h: nat) returns (after: map<nat, Hash>)
    ensures after == KeepHashes(m, h)
  {
    after := DeleteWhere(m, (k: nat) => k > h);
  }

  method DropRows<V>(m: map<ScidHeight, V>, h: nat) returns (after: map<ScidHeight, V>)
    ensures after == KeepRows(m, h)
  {
    after := DeleteWhere(m, (k: ScidHeight) => k.height > h);
  }

  method DropInvokes(m: map<InvokeKey, Invocation>, aff: set<Scid>, h: nat) returns (after: map<InvokeKey, Invocation>)
    ensures after == KeepInvokes(m, aff, h)
  {
    after := DeleteWhere(m, (k: InvokeKey) => k.scid in aff && k.height > h);
  }

  method DropNorms(m: map<NormKey, NormalTx>, h: nat) returns (after: map<NormKey, NormalTx>)
    ensures after == KeepNorms(m, h)
  {
    after := DeleteWhere(m, (k: NormKey) => k.height > h);
  }

  method DropTela(m: map<TelaKey, string>, aff: set<Scid>) returns (after: map<TelaKey, string>)
    ensures after == KeepTela(m, aff)
  {
    after := DeleteWhere(m, (k: TelaKey) => k.scid in aff);
  }

  /** The class rows of the scids that go, found through class_scid. */
  method DropClassRows(rows: map<ClassKey, ClassMeta>, idx: map<Scid, ClassMeta>, gone: set<Scid>)
    returns (after: map<ClassKey, ClassMeta>)
    ensures after == rows - StaleRows(idx, gone)
  {
    after := rows;
    var todo := gone;
    while todo != {}
      invariant todo <= gone
      invariant after == rows - set s | s in gone - todo && s in idx :: RowOf(s, idx[s])
      decreases |todo|
    {
      var s :| s in todo;
      if s in idx {
        after := after - {RowOf(s, idx[s])};
      }
      todo := todo - {s};
    }
    assert gone - todo == gone;
  }

  method DropOwnerEdges(es: set<OwnerEdge>, gone: set<Scid>) returns (after: set<OwnerEdge>)
    ensures after == KeepOwnerEdges(es, gone)
  {
    after := es;
    var todo := es;
    while todo != {}
      invariant todo <= es
      invariant after == todo + KeepOwnerEdges(es - todo, gone)
      decreases |todo|
    {
      var e :| e in todo;
      todo := todo - {e};
      if e.scid in gone {
        after := after - {e};
      }
    }
    assert es - todo == es;
  }

  method LowerCount(scCount: Option<int>, deleted: nat) returns (after: Option<int>)
    ensures after == DropOwners(scCount, deleted)
  {
    after := scCount;
    if deleted > 0 && scCount.Some? {
      var left := scCount.value - deleted;
      after := Some(if left < 0 then 0 else left);
    }
  }

  /** Deletes the owners that go, counting those the bucket really held. */
  method DropOwnerRows(owners: map<Scid, Addr>, gone: set<Scid>) returns (after: map<Scid, Addr>, deleted: nat)
    ensures after == owners - gone && deleted == Removed(owners, gone)
  {
    hide Removed;
    after, deleted := owners, 0;
    var todo := gone;
    ghost var done: set<Scid> := {};
    NothingGone(owners);
    while todo != {}
      invariant done + todo == gone && done !! todo
      invariant after == owners - done && deleted == Removed(owners, done)
      decreases |todo|
    {
      var s :| s in todo;
      OneMoreGone(owners, done, s);
      if s in after {
        deleted := deleted + 1;
      }
      after, done, todo := after - {s}, done + {s}, todo - {s};
    }
    assert done == gone;
  }

  lemma NothingGone(owners: map<Scid, Addr>)
    ensures owners - {} == owners && Removed(owners, {}) == 0
  {
    assert owners.Keys * {} == {};
  }

  lemma OneMoreGone(owners: map<Scid, Addr>, done: set<Scid>, s: Scid)
    requires s !in done
    ensures Removed(owners, done + {s}) == Removed(owners, done) + (if s in owners then 1 else 0)
    ensures owners - (done + {s}) == (owners - done) - {s}
  {
    if s in owners {
      assert owners.Keys * (done + {s}) == (owners.Keys * done) + {s};
    } else {
      assert owners.Keys * (done + {s}) == owners.Keys * done;
    }
  }

  class BboltStore {
    var owners: map<Scid, Addr>
    var invokes: map<InvokeKey, Invocation>
    var scvars: map<ScidHeight, Variables>
    var latest: map<Scid, nat>
    var heights: map<ScidHeight, nat>
    var normTxs: map<NormKey, NormalTx>
    var invalid: map<Scid, nat>
    var regTxCount: nat
    var burnTxCount: nat
    var normTxCount: nat
    var scCount: Option<int>
    var lastIndexedHeight: Option<nat>
    var blockHashes: map<nat, Hash>
    var installs: map<ScidHeight, InstallRecord>
    var classIdx: map<Scid, ClassMeta>
    var classRows: map<ClassKey, ClassMeta>
    var scCodes: map<Scid, CodeEntry>
    var ownerScids: set<OwnerEdge>
    var addrScids: map<Edge, AddrEntry>
    var telaContent: map<TelaKey, string>

    ghost function View(): Db
      reads this
    {
      Db(owners, invokes, scvars, latest, heights, normTxs, invalid, regTxCount, burnTxCount, normTxCount,
         scCount, lastIndexedHeight, blockHashes, installs, classIdx, classRows, scCodes, ownerScids, addrScids,
             telaContent)
    }

    constructor ()
      ensures View() == EMPTY_DB
    {
      owners, invokes, scvars, latest, heights, normTxs := map[], map[], map[], map[], map[], map[];
      invalid, regTxCount, burnTxCount, normTxCount, scCount, lastIndexedHeight := map[], 0, 0, 0, None, None;
      blockHashes, installs, classIdx, classRows, scCodes := map[], map[], map[], map[], map[];
      ownerScids, addrScids, telaContent := {}, map[], map[];
    }

    /** One transaction; `order` is the order the unstable sort left the normal txs in. */
    method FlushBatch(batch: WriteBatch) returns (ghost order: seq<NormalTxRef>)
      requires batch.Valid()
      modifies this
      ensures multiset(order) == multiset(batch.normalTxs)
      ensures View() == Flush(old(View()), batch.View().(normalTxs := order))
      ensures Consistent(batch.normalTxs) ==> View() == Flush(old(View()), batch.View())
    {
      hide View, ActorsFlushed, RowsFlushed, CountersFlushed, RouteFlushed, Flush, Consistent;
      ghost var before, b := View(), batch.View();
      FlushActors(batch);
      order := FlushRows(batch);
      FlushCounters(batch);
      FlushRoute(batch);
      FlushedInParts(before, b, order);
      if Consistent(batch.normalTxs) {
        BatchOrder(batch);
        FlushInAnyOrder(before, b, order);
      }
    }

    /** Owners, invocations and invalid deploys, with the scid counter. */
    method FlushActors(batch: WriteBatch)
      modifies this
      ensures View() == ActorsFlushed(old(View()), batch.View())
    {
      hide PutInvocations, CountOwners, NewOwners, EdgesOf;
      PutActors(batch);
    }

    method PutActors(batch: WriteBatch)
      modifies this`owners, this`invokes, this`invalid, this`scCount
      ensures owners == old(owners) + batch.owners && invalid == old(invalid) + batch.invalidScids
      ensures invokes == PutInvocations(old(invokes), batch.invocations)
      ensures scCount == CountOwners(old(scCount), old(owners), batch.owners)
    {
      hide *;
      var added;
      CountedOwners(scCount, owners, batch.owners);
      owners, added := PutOwners(owners, batch.owners);
      invokes := AppendInvocations(invokes, batch.invocations);
      invalid := PutAll(invalid, batch.invalidScids);
      scCount := AddScidCount(scCount, owners, added);
    }

    /** Snapshots, interaction counts and normal txs. */
    method FlushRows(batch: WriteBatch) returns (ghost order: seq<NormalTxRef>)
      modifies this
      ensures multiset(order) == multiset(batch.normalTxs)
      ensures View() == RowsFlushed(old(View()), batch.View(), order)
    {
      hide RaiseLatest, AddHeights, PutNormals, EdgesOf;
      order := PutDetail(batch);
    }

    method PutDetail(batch: WriteBatch) returns (ghost order: seq<NormalTxRef>)
      modifies this`scvars, this`latest, this`heights, this`normTxs
      ensures scvars == old(scvars) + batch.variables && latest == RaiseLatest(old(latest), batch.variables.Keys)
      ensures heights == AddHeights(old(heights), batch.heights)
      ensures multiset(order) == multiset(batch.normalTxs) && normTxs == PutNormals(old(normTxs), order)
    {
      hide *;
      scvars, latest := PutSnapshots(scvars, latest, batch.variables);
      heights := PutHeights(heights, batch.heights);
      normTxs, order := PutNormalTxs(normTxs, batch.normalTxs);
    }

    /** The tx counters of the same transaction. */
    method FlushCounters(batch: WriteBatch)
      modifies this
      ensures View() == CountersFlushed(old(View()), batch.View())
    {
      hide EdgesOf;
      regTxCount := regTxCount + batch.regTxCount;
      burnTxCount := burnTxCount + batch.burnTxCount;
      normTxCount := normTxCount + batch.normTxCount;
    }

    /** The Route B buckets and the height row of the same transaction. */
    method FlushRoute(batch: WriteBatch)
      modifies this
      ensures View() == RouteFlushed(old(View()), batch.View())
    {
      hide NonEmptyClasses, PutClassRows, NonEmptyCodes, NonEmptyOwners, EdgesOf, MergeEdges;
      PutRoute(batch);
    }

    method PutRoute(batch: WriteBatch)
      modifies this`blockHashes, this`installs, this`classIdx, this`classRows, this`scCodes, this`ownerScids
      modifies this`addrScids, this`lastIndexedHeight
      ensures lastIndexedHeight == if batch.lastHeight > 0 then Some(batch.lastHeight) else old(lastIndexedHeight)
      ensures blockHashes == old(blockHashes) + batch.blockHashes
      ensures installs == old(installs) + batch.installs
      ensures classIdx == old(classIdx) + NonEmptyClasses(batch.classes)
      ensures classRows == PutClassRows(old(classRows), old(classIdx), NonEmptyClasses(batch.classes))
      ensures scCodes == old(scCodes) + NonEmptyCodes(batch.scCodes)
      ensures ownerScids == old(ownerScids) + NonEmptyOwners(EdgesOf(batch.ownerScids))
      ensures addrScids == MergeEdges(old(addrScids), batch.addrScids)
    {
      hide *;
      if batch.lastHeight > 0 {
        lastIndexedHeight := Some(batch.lastHeight);
      }
      blockHashes := PutAll(blockHashes, batch.blockHashes);
      installs := PutAll(installs, batch.installs);
      classIdx, classRows := PutClasses(classIdx, classRows, batch.classes);
      scCodes := PutCodes(scCodes, batch.scCodes);
      ownerScids := PutOwnerScids(ownerScids, batch.ownerScids);
      addrScids := PutEdges(addrScids, batch.addrScids);
    }

    method StoreOwner(scid: Scid, owner: Addr)
      modifies this
      ensures View() == StoreOwnerIn(old(View()), scid, owner)
    {
      var isNew := scid !in owners;
      owners := owners[scid := owner];
      if owner != "" {
        ownerScids := ownerScids + {OwnerEdge(owner, scid)};
      }
      if isNew {
        scCount := AddScidCount(scCount, owners, 1);
      }
    }

    method StoreScidVariableDetails(scid: Scid, vars: Variables, height: nat)
      modifies this
      ensures View() == StoreVariablesIn(old(View()), scid, height, vars)
    {
      hide RaiseLatest, PutLatest;
      var k := ScidHeight(scid, height);
      scvars := scvars[k := vars];
      RunRaises(latest, {k}, scid, height);
      latest := PutLatest(latest, scid, height);
    }

    /** Drops every bucket but the block hashes. */
    method ResetIndex()
      modifies this
      ensures View() == ResetDb(old(View()))
    {
      ResetScan();
      ResetRoute();
    }

    method ResetRoute()
      modifies this`installs, this`classIdx, this`classRows, this`scCodes, this`ownerScids, this`addrScids,
          this`telaContent
      ensures installs == map[] && classIdx == map[] && classRows == map[] && scCodes == map[]
      ensures ownerScids == {} && addrScids == map[] && telaContent == map[]
    {
      installs, classIdx, classRows, scCodes := map[], map[], map[], map[];
      ownerScids, addrScids, telaContent := {}, map[], map[];
    }

    method ResetScan()
      modifies this`owners, this`invokes, this`scvars, this`latest, this`heights, this`normTxs, this`invalid
      modifies this`regTxCount, this`burnTxCount, this`normTxCount, this`scCount, this`lastIndexedHeight
      ensures owners == map[] && invokes == map[] && scvars == map[] && latest == map[] && heights == map[]
      ensures normTxs == map[] && invalid == map[] && regTxCount == burnTxCount == normTxCount == 0
      ensures scCount == None && lastIndexedHeight == None
    {
      owners, invokes, scvars, latest, heights, normTxs := map[], map[], map[], map[], map[], map[];
      invalid, regTxCount, burnTxCount, normTxCount, scCount, lastIndexedHeight := map[], 0, 0, 0, None, None;
    }

    /** Step 1: recomputes the edges of the affected scids from the detail at or below h. */
    method RecomputeEdges(aff: set<Scid>, h: nat) returns (survivors: map<Edge, AddrEntry>)
      requires aff == Affected(View(), h)
      ensures forall e: Edge :: e.scid in aff ==> At(survivors, e) == Survivor(View(), e, h)
    {
      hide SurvivorsOf, FilledBy, Affected, Survivor;
      ghost var byInvoke := set k | k in invokes :: ByInvoke(k);
      var touched := ScanInvokes(invokes, aff, h);
      touched := ScanNormals(normTxs, touched, byInvoke, aff, h);
      assert byInvoke + (set k | k in normTxs :: ByNormal(k)) == TouchesOf(View());
      survivors := ScanInstalls(installs, touched, aff, h);
      forall e: Edge | e.scid in aff ensures At(survivors, e) == Survivor(View(), e, h) {
        ScansAreSurvivors(View(), h, touched, survivors, e);
      }
    }

    /** One transaction; a negative height means 0. */
    method TruncateToHeight(target: int)
      modifies this
      ensures View() == Truncate(old(View()), Clamp(target))
    {
      hide View, Truncate, DerivedTruncated, DetailTruncated, EntitiesTruncated;
      var h := if target < 0 then 0 else target;
      ghost var before := View();
      var aff, gone := FindAffected(h);
      TruncateDerived(aff, h);
      TruncateDetail(aff, h);
      TruncateEntities(gone);
      TruncatedInParts(before, h);
    }

    /** Step 0: the affected scids, and those first installed above h. */
    method FindAffected(h: nat) returns (aff: set<Scid>, gone: set<Scid>)
      ensures aff == Affected(View(), h) && gone == InstalledAbove(View(), h)
    {
      hide ScidsAbove;
      var byHeight := CollectAbove(heights, h);
      var bySnapshot := CollectAbove(scvars, h);
      gone := CollectAbove(installs, h);
      aff := byHeight + bySnapshot + gone;
    }

    /** Step 1: the rows recomputed or dropped for affected scids, and the height row. */
    method TruncateDerived(aff: set<Scid>, h: nat)
      requires aff == Affected(View(), h)
      modifies this
      ensures View() == DerivedTruncated(old(View()), aff, h)
    {
      hide TruncatedEdges, KeepTela, LoweredLatest, Affected, RollBackLast;
      RewriteDerived(aff, h);
    }

    method RewriteDerived(aff: set<Scid>, h: nat)
      requires aff == Affected(View(), h)
      modifies this`addrScids, this`latest, this`telaContent, this`lastIndexedHeight
      ensures addrScids == TruncatedEdges(old(View()), h) && latest == LoweredLatest(old(latest), scvars, aff, h)
      ensures telaContent == KeepTela(old(telaContent), aff)
      ensures lastIndexedHeight == RollBackLast(old(lastIndexedHeight), h)
    {
      hide View, TruncatedEdges, KeepTela, LoweredLatest, Affected;
      RollBackEdges(aff, h);
      LowerLatest(aff, h);
      telaContent := DropTela(telaContent, aff);
      lastIndexedHeight :=
        Some(if lastIndexedHeight.Some? && lastIndexedHeight.value < h then lastIndexedHeight.value else h);
    }

    method RollBackEdges(aff: set<Scid>, h: nat)
      requires aff == Affected(View(), h)
      modifies this`addrScids
      ensures addrScids == TruncatedEdges(old(View()), h)
    {
      hide Affected, Survivor, TruncatedEdges;
      var survivors := RecomputeEdges(aff, h);
      var rolledBack := ApplyRollback(addrScids, aff, survivors);
      RollbackIsTruncated(View(), h, survivors, rolledBack);
      addrScids := rolledBack;
    }

    method LowerLatest(aff: set<Scid>, h: nat)
      modifies this`latest
      ensures latest == LoweredLatest(old(latest), scvars, aff, h)
    {
      var lowered := LowerPointers(latest, scvars, aff, h);
      PointersAreLowered(latest, scvars, aff, h, lowered);
      latest := lowered;
    }

    /** Step 2: height-keyed detail above h. */
    method TruncateDetail(aff: set<Scid>, h: nat)
      modifies this
      ensures View() == DetailTruncated(old(View()), aff, h)
    {
      hide KeepHashes, KeepRows, KeepInvokes, KeepNorms;
      DropDetail(aff, h);
    }

    method DropDetail(aff: set<Scid>, h: nat)
      modifies this`blockHashes, this`installs, this`heights, this`invokes, this`scvars, this`normTxs
      ensures blockHashes == KeepHashes(old(blockHashes), h) && installs == KeepRows(old(installs), h)
      ensures heights == KeepRows(old(heights), h) && invokes == KeepInvokes(old(invokes), aff, h)
      ensures scvars == KeepRows(old(scvars), h) && normTxs == KeepNorms(old(normTxs), h)
    {
      hide *;
      blockHashes := DropHashes(blockHashes, h);
      installs := DropRows(installs, h);
      heights := DropRows(heights, h);
      invokes := DropInvokes(invokes, aff, h);
      scvars := DropRows(scvars, h);
      normTxs := DropNorms(normTxs, h);
    }

    /** Step 3: the footprint of the scids first installed above h. */
    method TruncateEntities(gone: set<Scid>)
      modifies this
      ensures View() == EntitiesTruncated(old(View()), gone)
    {
      hide StaleRows, DropOwners, Removed, KeepOwnerEdges;
      DropEntities(gone);
    }

    method DropEntities(gone: set<Scid>)
      modifies this`owners, this`classIdx, this`classRows, this`scCodes, this`invalid, this`ownerScids, this`scCount
      ensures owners == old(owners) - gone && classIdx == old(classIdx) - gone && scCodes == old(scCodes) - gone
      ensures invalid == old(invalid) - gone && ownerScids == KeepOwnerEdges(old(ownerScids), gone)
      ensures classRows == old(classRows) - StaleRows(old(classIdx), gone)
      ensures scCount == DropOwners(old(scCount), Removed(old(owners), gone))
    {
      hide *;
      classRows := DropClassRows(classRows, classIdx, gone);
      var deleted;
      owners, deleted := DropOwnerRows(owners, gone);
      classIdx, scCodes, invalid := classIdx - gone, scCodes - gone, invalid - gone;
      ownerScids := DropOwnerEdges(ownerScids, gone);
      scCount := LowerCount(scCount, deleted);
    }

    /** GetClassInstalls: one entry per scid of the class, oldest first, at most `limit` when positive. */
    method GetClassInstalls(className: string, limit: int) returns (out: seq<ClassInstall>)
      ensures className == "" ==> out == []
      ensures HeightOrdered(out) && forall x <- out :: IsHighestRow(classRows, className, x)
      ensures className != "" && limit <= 0 ==>
                forall k <- classRows :: k.className == className ==> exists x <- out :: x.scid == k.scid
      ensures limit > 0 ==> |out| <= limit
      ensures className != "" && |out| < limit ==>
                forall k <- classRows :: k.className == className ==> exists x <- out :: x.scid == k.scid
      ensures forall x <- out, y: ClassInstall | className != "" && IsHighestRow(classRows, className, y)
              && y !in out ::
                x.installHeight <= y.installHeight
    {
      if className == "" {
        return [];
      }
      var highest := HighestRows(classRows, className);
      out := InHeightOrder(highest);
      hide HeightOrdered;
      forall k | k in classRows && k.className == className ensures exists x <- out :: x.scid == k.scid {
        assert highest[k.scid] in out;
      }
      assert forall y: ClassInstall | IsHighestRow(classRows, className, y) :: highest[y.scid] == y;
      hide IsHighestRow;
      if 0 < limit < |out| {
        FirstOrdered(out, limit);
        out := out[..limit];
      }
    }

    /** In a store whose indexes agree, the unlimited listing is exactly the class_scid entries of the class. */
    method ListClass(className: string) returns (out: seq<ClassInstall>)
      requires ClassRowsAgree(View()) && className != ""
      ensures HeightOrdered(out)
      ensures forall s: Scid :: (exists x <- out :: x.scid == s) <==>
              s in classIdx && classIdx[s].className == className
      ensures forall x <- out ::
                x.scid in classIdx && x.meta == classIdx[x.scid] && x.installHeight == x.meta.installHeight
    {
      out := GetClassInstalls(className, 0);
      forall s | s in classIdx && classIdx[s].className == className ensures exists x <- out :: x.scid == s {
        assert RowOf(s, classIdx[s]) in classRows;
      }
    }

    method GetScidCount() returns (n: int)
      ensures n == ScidCount(View())
    {
      if scCount.Some? {
        return scCount.value;
      }
      n := 0;
      var todo := owners.Keys;
      while todo != {}
        invariant todo <= owners.Keys && n + |todo| == |owners.Keys|
        decreases |todo|
      {
        var s :| s in todo;
        n, todo := n + 1, todo - {s};
      }
      assert |owners| == |owners.Keys|;
    }
  }

  // ---------- The parts of a transaction ----------

  ghost function ActorsFlushed(db: Db, b: Batch): Db {
    db.(owners := db.owners + b.owners, invokes := PutInvocations(db.invokes, b.invocations),
        invalid := db.invalid + b.invalid, scCount := CountOwners(db.scCount, db.owners, b.owners))
  }

  ghost function RowsFlushed(db: Db, b: Batch, order: seq<NormalTxRef>): Db {
    db.(scvars := db.scvars + b.variables, latest := RaiseLatest(db.latest, b.variables.Keys),
        heights := AddHeights(db.heights, b.heights), normTxs := PutNormals(db.normTxs, order))
  }

  ghost function CountersFlushed(db: Db, b: Batch): Db {
    db.(reg := db.reg + b.reg, burn := db.burn + b.burn, norm := db.norm + b.norm)
  }

  ghost function RouteFlushed(db: Db, b: Batch): Db {
    db.(last := if b.lastHeight > 0 then Some(b.lastHeight) else db.last,
        blockHashes := db.blockHashes + b.blockHashes, installs := db.installs + b.installs,
        classIdx := db.classIdx + NonEmptyClasses(b.classes),
        classRows := PutClassRows(db.classRows, db.classIdx, NonEmptyClasses(b.classes)),
        scCodes := db.scCodes + NonEmptyCodes(b.scCodes), ownerScids := db.ownerScids + NonEmptyOwners(b.ownerScids),
        addrScids := MergeEdges(db.addrScids, b.addrScids))
  }

  lemma FlushedInParts(db: Db, b: Batch, order: seq<NormalTxRef>)
    ensures RouteFlushed(CountersFlushed(RowsFlushed(ActorsFlushed(db, b), b, order), b), b) ==
            Flush(db, b.(normalTxs := order))
  {
    hide PutNormals, PutInvocations, AddHeights, RaiseLatest, CountOwners, PutClassRows, MergeEdges;
    hide NonEmptyClasses, NonEmptyCodes, NonEmptyOwners;
  }

  lemma BatchOrder(batch: WriteBatch)
    ensures batch.View().normalTxs == batch.normalTxs
  {
    hide EdgesOf;
  }

  ghost function DerivedTruncated(db: Db, aff: set<Scid>, h: nat): Db {
    db.(addrScids := TruncatedEdges(db, h), latest := LoweredLatest(db.latest, db.scvars, aff, h),
        tela := KeepTela(db.tela, aff), last := RollBackLast(db.last, h))
  }

  ghost function DetailTruncated(db: Db, aff: set<Scid>, h: nat): Db {
    db.(blockHashes := KeepHashes(db.blockHashes, h), installs := KeepRows(db.installs, h),
        heights := KeepRows(db.heights, h), invokes := KeepInvokes(db.invokes, aff, h),
        scvars := KeepRows(db.scvars, h), normTxs := KeepNorms(db.normTxs, h))
  }

  ghost function EntitiesTruncated(db: Db, gone: set<Scid>): Db {
    db.(classRows := db.classRows - StaleRows(db.classIdx, gone), owners := db.owners - gone,
        classIdx := db.classIdx - gone, scCodes := db.scCodes - gone, invalid := db.invalid - gone,
        ownerScids := KeepOwnerEdges(db.ownerScids, gone), scCount := DropOwners(db.scCount, Removed(db.owners, gone)))
  }

  lemma TruncatedInParts(db: Db, h: nat)
    ensures var aff := Affected(db, h);
            EntitiesTruncated(DetailTruncated(DerivedTruncated(db, aff, h), aff, h), InstalledAbove(db, h)) ==
                Truncate(db, h)
  {
    hide ScidsAbove, TruncatedEdges, KeepHashes, KeepRows, KeepInvokes, KeepNorms, KeepOwnerEdges;
    hide StaleRows, DropOwners, Removed, KeepTela, LoweredLatest, Affected, InstalledAbove, RollBackLast;
  }

  lemma CountedOwners(n: Option<int>, m: map<Scid, Addr>, add: map<Scid, Addr>)
    ensures CountOwners(n, m, add) ==
            if NewOwners(m, add) == 0 then n
            else if n.Some? then Some(n.value + NewOwners(m, add)) else Some(|m + add|)
  {
  }

  lemma FlushInAnyOrder(db: Db, b: Batch, order: seq<NormalTxRef>)
    requires Consistent(b.normalTxs) && multiset(order) == multiset(b.normalTxs)
    ensures Flush(db, b.(normalTxs := order)) == Flush(db, b)
  {
    hide PutNormals, PutInvocations, AddHeights, RaiseLatest, CountOwners, PutClassRows, MergeEdges;
    hide NonEmptyClasses, NonEmptyCodes, NonEmptyOwners;
    OrderIsInvisible(db.normTxs, order, b.normalTxs);
  }
}
