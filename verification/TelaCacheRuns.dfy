/**
 What the plain list of module TelaCache guarantees over every sequence of calls: eviction takes
 exactly the least recently used entries, and the list is ordered by last use.
 */
module TelaCacheRuns {
  import opened IndexTypes
  import opened TelaCache

  datatype Op = DoGet(key: string) | DoPut(key: string, entry: Option<Entry>) | DoPurge(scid: string)

  /** The list after one call, as the Cache methods specify it. */
  ghost function After(xs: seq<Item>, op: Op, maxBytes: nat): seq<Item> {
    match op
    case DoGet(key) => Recent(xs, key)
    case DoPut(key, None) => xs
    case DoPut(key, Some(e)) => Stored(xs, key, e, maxBytes)
    case DoPurge(scid) => if scid == "" then xs else Purged(xs, scid)
  }

  ghost function Run(ops: seq<Op>, maxBytes: nat): seq<Item> {
    if ops == [] then [] else After(Run(ops[..|ops| - 1], maxBytes), ops[|ops| - 1], maxBytes)
  }

  /** What stays is the longest prefix that fits: only the oldest entries go, and no more than needed. */
  lemma {:induction false} EvictsOnlyTheOldest(xs: seq<Item>, maxBytes: nat)
    ensures var ys := Evicted(xs, maxBytes);
            && |ys| <= |xs| && ys == xs[..|ys|] && Weight(ys) <= maxBytes
            && (|ys| < |xs| ==> Weight(xs[..|ys| + 1]) > maxBytes)
  {
    if xs != [] && Weight(xs) > maxBytes {
      var init := xs[..|xs| - 1];
      EvictsOnlyTheOldest(init, maxBytes);
      var n := |Evicted(init, maxBytes)|;
      assert init[..n] == xs[..n];
      if n < |init| {
        assert init[..n + 1] == xs[..n + 1];
      } else {
        assert xs[..n + 1] == xs;
      }
    } else {
      assert xs[..|xs|] == xs;
    }
  }

  /** A purge keeps exactly the entries of other scids. */
  lemma {:induction false} PurgeLeavesNone(xs: seq<Item>, scid: string)
    ensures forall x :: x in Purged(xs, scid) <==> x in xs && ScidOf(x.key) != scid
  {
    hide ScidOf;
    if xs != [] {
      PurgeLeavesNone(xs[1..], scid);
      forall x ensures x in Purged(xs, scid) <==> x in xs && ScidOf(x.key) != scid {
        assert x in xs <==> x == xs[0] || x in xs[1..];
      }
    }
  }

  // ---------- What a purge takes, by the text of the key ----------

  /** The scid is the text in front of the first separator. */
  lemma {:induction false} ScidIsInFront(scid: string, path: string)
    requires '|' !in scid
    ensures ScidOf(scid + "|" + path) == scid
  {
    var key := scid + "|" + path;
    if scid != "" {
      assert key[1..] == scid[1..] + "|" + path && (scid[1..] + "|" + path)[|scid| - 1] == '|';
      ScidIsInFront(scid[1..], path);
      assert scid == [scid[0]] + scid[1..];
    }
  }

  /** A key without a separator belongs to no scid. */
  lemma NoSeparatorNoScid(key: string)
    requires '|' !in key
    ensures ScidOf(key) == ""
  {
    assert key != "" ==> '|' !in key[1..];
  }

  lemma FirstSeparator(key: string) returns (scid: string, path: string)
    requires '|' in key
    ensures '|' !in scid && key == scid + "|" + path
  {
    if key[0] == '|' {
      scid, path := "", key[1..];
    } else {
      var tail;
      tail, path := FirstSeparator(key[1..]);
      scid := [key[0]] + tail;
    }
  }

  lemma ScidIsPrefix(key: string, scid: string)
    requires scid != "" && '|' !in scid
    ensures ScidOf(key) == scid <==> scid + "|" <= key
  {
    hide ScidOf;
    if scid + "|" <= key {
      var path := key[|scid| + 1..];
      assert key == scid + "|" + path;
      ScidIsInFront(scid, path);
    } else if '|' in key {
      var front, path := FirstSeparator(key);
      ScidIsInFront(front, path);
    } else {
      NoSeparatorNoScid(key);
    }
  }

  /** A purge takes the entries whose key begins with "<scid>|" and no other. */
  lemma PurgeByPrefix(xs: seq<Item>, scid: string, maxBytes: nat)
    requires scid != "" && '|' !in scid
    ensures forall x :: x in After(xs, DoPurge(scid), maxBytes) <==> x in xs && !(scid + "|" <= x.key)
  {
    hide ScidOf;
    PurgeLeavesNone(xs, scid);
    forall x | x in xs ensures ScidOf(x.key) == scid <==> scid + "|" <= x.key {
      ScidIsPrefix(x.key, scid);
    }
  }

  // ---------- What lookups and stores do, by position ----------

  /** A hit moves its entry to the front and leaves the others in order; a miss changes nothing. */
  lemma LookupByPosition(xs: seq<Item>, key: string, maxBytes: nat)
    requires UniqueKeys(xs)
    ensures forall i | 0 <= i < |xs| && xs[i].key == key ::
              After(xs, DoGet(key), maxBytes) == [xs[i]] + xs[..i] + xs[i + 1..]
    ensures (forall x <- xs :: x.key != key) ==> After(xs, DoGet(key), maxBytes) == xs
  {
    forall i | 0 <= i < |xs| && xs[i].key == key
      ensures After(xs, DoGet(key), maxBytes) == [xs[i]] + xs[..i] + xs[i + 1..]
    {
      HitIsFront(xs, i);
      assert [xs[i]] + (xs[..i] + xs[i + 1..]) == [xs[i]] + xs[..i] + xs[i + 1..];
    }
    if forall x <- xs :: x.key != key {
      AbsentKey(xs, key);
    }
  }

  lemma {:induction false} AbsentKey(xs: seq<Item>, key: string)
    requires forall x <- xs :: x.key != key
    ensures Find(xs, key) == None && Without(xs, key) == xs
  {
    if xs != [] {
      AbsentKey(xs[1..], key);
      assert xs == [xs[0]] + xs[1..] && xs[0] in xs;
    }
  }

  /**
   A store puts its entry in front of the others (a stored key moves), and then the longest prefix that fits
   stays: in particular the entry itself unless its body alone is too large, and everything when it all fits.
   */
  lemma StoreByPosition(xs: seq<Item>, key: string, e: Entry, others: seq<Item>, maxBytes: nat)
    requires UniqueKeys(xs)
    requires if exists i :: 0 <= i < |xs| && xs[i].key == key
             then exists i :: 0 <= i < |xs| && xs[i].key == key && others == xs[..i] + xs[i + 1..]
             else others == xs
    ensures var ys, all := After(xs, DoPut(key, Some(e)), maxBytes), [Item(key, e)] + others;
            && |ys| <= |all| && ys == all[..|ys|] && Weight(ys) <= maxBytes
            && (|ys| < |all| ==> Weight(all[..|ys| + 1]) > maxBytes)
            && (|e.body| <= maxBytes ==> ys != [] && ys[0] == Item(key, e))
  {
    var all := [Item(key, e)] + others;
    if i :| 0 <= i < |xs| && xs[i].key == key && others == xs[..i] + xs[i + 1..] {
      HitIsFront(xs, i);
    } else {
      AbsentKey(xs, key);
    }
    EvictsOnlyTheOldest(all, maxBytes);
    assert all[..1] == [Item(key, e)] + [];
    WeightFront(Item(key, e), []);
    assert all[..0] == [];
  }

  // ---------- Recency ----------

  /** The last call naming the key. */
  ghost function LastUse(ops: seq<Op>, key: string): int {
    if ops == [] then -1
    else
      var op := ops[|ops| - 1];
      if (op.DoGet? && op.key == key) || (op.DoPut? && op.key == key && op.entry.Some?) then |ops| - 1
      else LastUse(ops[..|ops| - 1], key)
  }

  /** The entry of the last call that stored the key. */
  ghost function LastPut(ops: seq<Op>, key: string): Option<Entry> {
    if ops == [] then None
    else
      var op := ops[|ops| - 1];
      if op.DoPut? && op.key == key && op.entry.Some? then op.entry else LastPut(ops[..|ops| - 1], key)
  }

  /** Strictly by last use, most recent first, every entry the last one stored under its key. */
  ghost predicate ByRecency(xs: seq<Item>, ops: seq<Op>) {
    && (forall i, j | 0 <= i < j < |xs| :: LastUse(ops, xs[i].key) > LastUse(ops, xs[j].key))
    && (forall i | 0 <= i < |xs| :: LastPut(ops, xs[i].key) == Some(xs[i].entry) && LastUse(ops, xs[i].key) < |ops|)
  }

  /** xs without the items at some positions, in the same order. */
  ghost predicate Thinned(ys: seq<Item>, xs: seq<Item>) {
    if ys == [] then true
    else if xs == [] then false
    else if ys[0] == xs[0] then Thinned(ys[1..], xs[1..])
    else Thinned(ys, xs[1..])
  }

  /** Where the k-th kept item stood. */
  ghost function Origin(ys: seq<Item>, xs: seq<Item>, k: nat): (i: nat)
    requires Thinned(ys, xs) && k < |ys|
    ensures k <= i < |xs| && xs[i] == ys[k]
    decreases |xs|
  {
    if ys[0] == xs[0] then (if k == 0 then 0 else 1 + Origin(ys[1..], xs[1..], k - 1))
    else 1 + Origin(ys, xs[1..], k)
  }

  lemma {:induction false} OriginRises(ys: seq<Item>, xs: seq<Item>, k: nat, l: nat)
    requires Thinned(ys, xs) && k < l < |ys|
    ensures Origin(ys, xs, k) < Origin(ys, xs, l)
    decreases |xs|
  {
    if ys[0] == xs[0] {
      if k > 0 {
        OriginRises(ys[1..], xs[1..], k - 1, l - 1);
      }
    } else {
      OriginRises(ys, xs[1..], k, l);
    }
  }

  lemma ThinnedByRecency(ys: seq<Item>, xs: seq<Item>, ops: seq<Op>)
    requires Thinned(ys, xs) && ByRecency(xs, ops)
    ensures ByRecency(ys, ops)
  {
    forall k, l | 0 <= k < l < |ys| ensures LastUse(ops, ys[k].key) > LastUse(ops, ys[l].key) {
      OriginRises(ys, xs, k, l);
      assert xs[Origin(ys, xs, k)] == ys[k] && xs[Origin(ys, xs, l)] == ys[l];
    }
    forall k | 0 <= k < |ys| ensures LastPut(ops, ys[k].key) == Some(ys[k].entry) && LastUse(ops, ys[k].key) < |ops| {
      assert xs[Origin(ys, xs, k)] == ys[k];
    }
  }

  lemma {:induction false} AllThinned(xs: seq<Item>)
    ensures Thinned(xs, xs)
  {
    if xs != [] {
      AllThinned(xs[1..]);
    }
  }

  lemma {:induction false} FirstThinned(xs: seq<Item>, n: nat)
    requires n <= |xs|
    ensures Thinned(xs[..n], xs)
    decreases |xs|
  {
    if n > 0 {
      FirstThinned(xs[1..], n - 1);
      assert xs[..n][1..] == xs[1..][..n - 1];
    }
  }

  /** Dropping a head keeps a thinned list thinned. */
  lemma {:induction false} ThinnedTail(ys: seq<Item>, xs: seq<Item>)
    requires xs != [] && Thinned(ys, xs[1..])
    ensures Thinned(ys, xs)
    decreases |xs|, 0
  {
    if ys != [] && ys[0] == xs[0] {
      TailOfThinned(ys, xs[1..]);
    }
  }

  lemma {:induction false} TailOfThinned(ys: seq<Item>, xs: seq<Item>)
    requires ys != [] && Thinned(ys, xs)
    ensures Thinned(ys[1..], xs)
    decreases |xs|, 1
  {
    if ys[0] == xs[0] {
      ThinnedTail(ys[1..], xs);
    } else {
      TailOfThinned(ys, xs[1..]);
      ThinnedTail(ys[1..], xs);
    }
  }

  lemma {:induction false} PurgedThinned(xs: seq<Item>, scid: string)
    ensures Thinned(Purged(xs, scid), xs)
  {
    hide ScidOf;
    if xs != [] {
      PurgedThinned(xs[1..], scid);
      if ScidOf(xs[0].key) == scid {
        ThinnedTail(Purged(xs[1..], scid), xs);
      } else {
        assert ([xs[0]] + Purged(xs[1..], scid))[1..] == Purged(xs[1..], scid);
      }
    }
  }

  lemma {:induction false} WithoutThinned(xs: seq<Item>, key: string)
    ensures Thinned(Without(xs, key), xs)
    ensures forall i | 0 <= i < |Without(xs, key)| :: Without(xs, key)[i].key != key
  {
    if xs != [] {
      WithoutThinned(xs[1..], key);
      if xs[0].key == key {
        ThinnedTail(Without(xs[1..], key), xs);
      } else {
        assert ([xs[0]] + Without(xs[1..], key))[1..] == Without(xs[1..], key);
      }
    }
  }

  /** Calls that name other keys do not move a key's last use. */
  lemma OtherKeys(xs: seq<Item>, ops: seq<Op>, op: Op)
    requires ByRecency(xs, ops)
    requires forall i | 0 <= i < |xs| ::
               !(op.DoGet? && op.key == xs[i].key) && !(op.DoPut? && op.key == xs[i].key && op.entry.Some?)
    ensures ByRecency(xs, ops + [op])
  {
    assert (ops + [op])[..|ops|] == ops;
  }

  /** The named key comes first, before everything else. */
  lemma NamedFirst(xs: seq<Item>, ops: seq<Op>, op: Op, x: Item)
    requires ByRecency(xs, ops) && (forall i | 0 <= i < |xs| :: xs[i].key != x.key)
    requires (op == DoGet(x.key) && LastPut(ops, x.key) == Some(x.entry)) || op == DoPut(x.key, Some(x.entry))
    ensures ByRecency([x] + xs, ops + [op])
  {
    OtherKeys(xs, ops, op);
    assert (ops + [op])[..|ops|] == ops;
    var ys := [x] + xs;
    assert forall i | 1 <= i < |ys| :: ys[i] == xs[i - 1];
  }

  lemma {:induction false} FoundIsThere(xs: seq<Item>, key: string)
    requires Find(xs, key).Some?
    ensures Item(key, Find(xs, key).value) in xs
  {
    if xs[0].key != key {
      FoundIsThere(xs[1..], key);
    }
  }

  lemma {:induction false} NotFound(xs: seq<Item>, key: string)
    requires Find(xs, key).None?
    ensures forall i | 0 <= i < |xs| :: xs[i].key != key
  {
    if xs != [] {
      NotFound(xs[1..], key);
    }
  }

  lemma GetKeepsRecency(xs: seq<Item>, ops: seq<Op>, key: string)
    requires ByRecency(xs, ops)
    ensures ByRecency(Recent(xs, key), ops + [DoGet(key)])
  {
    if Find(xs, key).None? {
      NotFound(xs, key);
      OtherKeys(xs, ops, DoGet(key));
    } else {
      var x := Item(key, Find(xs, key).value);
      FoundIsThere(xs, key);
      WithoutThinned(xs, key);
      ThinnedByRecency(Without(xs, key), xs, ops);
      NamedFirst(Without(xs, key), ops, DoGet(key), x);
    }
  }

  lemma PutKeepsRecency(xs: seq<Item>, ops: seq<Op>, key: string, e: Entry, maxBytes: nat)
    requires ByRecency(xs, ops)
    ensures ByRecency(Stored(xs, key, e, maxBytes), ops + [DoPut(key, Some(e))])
  {
    hide ByRecency;
    var op, all := DoPut(key, Some(e)), [Item(key, e)] + Without(xs, key);
    WithoutThinned(xs, key);
    ThinnedByRecency(Without(xs, key), xs, ops);
    NamedFirst(Without(xs, key), ops, op, Item(key, e));
    EvictsOnlyTheOldest(all, maxBytes);
    FirstThinned(all, |Evicted(all, maxBytes)|);
    ThinnedByRecency(Evicted(all, maxBytes), all, ops + [op]);
  }

  lemma PurgeKeepsRecency(xs: seq<Item>, ops: seq<Op>, scid: string)
    requires ByRecency(xs, ops)
    ensures ByRecency(if scid == "" then xs else Purged(xs, scid), ops + [DoPurge(scid)])
  {
    hide ByRecency;
    OtherKeys(xs, ops, DoPurge(scid));
    PurgedThinned(xs, scid);
    ThinnedByRecency(Purged(xs, scid), xs, ops + [DoPurge(scid)]);
  }

  /** After any calls the list is ordered by last use, holds the last stored entries, and fits. */
  lemma {:induction false} RunIsByRecency(ops: seq<Op>, maxBytes: nat)
    ensures ByRecency(Run(ops, maxBytes), ops) && Weight(Run(ops, maxBytes)) <= maxBytes
    ensures UniqueKeys(Run(ops, maxBytes))
  {
    hide LastUse, LastPut;
    if ops != [] {
      var init, op := ops[..|ops| - 1], ops[|ops| - 1];
      RunIsByRecency(init, maxBytes);
      assert init + [op] == ops;
      var xs := Run(init, maxBytes);
      match op {
        case DoGet(key) =>
          GetKeepsRecency(xs, init, key);
          RecentWeight(xs, key);
        case DoPut(key, None) => OtherKeys(xs, init, op);
        case DoPut(key, Some(e)) =>
          PutKeepsRecency(xs, init, key, e, maxBytes);
          EvictsOnlyTheOldest([Item(key, e)] + Without(xs, key), maxBytes);
        case DoPurge(scid) =>
          PurgeKeepsRecency(xs, init, scid);
          PurgedWeight(xs, scid);
      }
    }
  }

  lemma {:induction false} PurgedWeight(xs: seq<Item>, scid: string)
    ensures Weight(Purged(xs, scid)) <= Weight(xs)
  {
    hide ScidOf;
    if xs != [] {
      PurgedWeight(xs[1..], scid);
      WeightFront(xs[0], xs[1..]);
      WeightFront(xs[0], Purged(xs[1..], scid));
      assert xs == [xs[0]] + xs[1..];
    }
  }

  lemma {:induction false} RecentWeight(xs: seq<Item>, key: string)
    requires UniqueKeys(xs)
    ensures Weight(Recent(xs, key)) == Weight(xs)
  {
    if Find(xs, key).Some? {
      FoundIsThere(xs, key);
      var i :| 0 <= i < |xs| && xs[i] == Item(key, Find(xs, key).value);
      HitIsFront(xs, i);
      WeightExcept(xs, i);
      WeightFront(xs[i], Except(xs, i));
    }
  }
}
