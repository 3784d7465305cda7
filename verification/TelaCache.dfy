/**
 The TELA content cache (api/tela_content.go): an intrusive ring with a sentinel, a node free
 list, recycled key lists and a per-scid index, refining a plain most-recent-first list.
 */
module TelaCache {
  import opened IndexTypes

  datatype Entry = Entry(body: string, mime: string, etag: string, height: int)
  datatype Item = Item(key: string, entry: Entry)

  /** The scid part of "<scid>|<path>", "" when there is no separator. */
  function ScidOf(key: string): string {
    if key == "" then ""
    else if key[0] == '|' then ""
    else if '|' in key[1..] then [key[0]] + ScidOf(key[1..])
    else ""
  }

  class Node {
    var prev: Node?
    var next: Node?
    var key: string
    var scid: string
    var entry: Option<Entry>

    constructor (k: string, s: string, e: Option<Entry>)
      ensures key == k && scid == s && entry == e && prev == null && next == null
    {
      prev, next, key, scid, entry := null, null, k, s, e;
    }
  }

  // ---------- The ring ----------

  predicate Distinct<T(==)>(q: seq<T>) {
    forall i, j | 0 <= i < j < |q| :: q[i] != q[j]
  }

  ghost function Around(root: Node, ring: seq<Node>): (c: seq<Node>)
    ensures |c| == |ring| + 2
  {
    [root] + ring + [root]
  }

  /** The links run root, ring[0], ring[1], .., root, and back. */
  ghost predicate Linked(root: Node, ring: seq<Node>)
    reads root`next, root`prev, ring`next, ring`prev
  {
    var c := Around(root, ring);
    && root !in ring && Distinct(ring)
    && (forall i | 0 <= i < |c| - 1 :: c[i].next == c[i + 1])
    && (forall i | 0 < i < |c| :: c[i].prev == c[i - 1])
  }

  ghost function Except<T>(q: seq<T>, i: nat): seq<T>
    requires i < |q|
  {
    q[..i] + q[i + 1..]
  }

  method Unlink(n: Node, ghost root: Node, ghost ring: seq<Node>, ghost i: nat)
    requires Linked(root, ring) && i < |ring| && ring[i] == n && n.prev != null && n.next != null
    modifies n.prev`next, n.next`prev
    ensures Linked(root, Except(ring, i))
  {
    ghost var c := Around(root, ring);
    assert c[i + 1] == n && n.prev == c[i] && n.next == c[i + 2];
    assert forall j, k | 0 <= j < k < |c| - 1 :: c[j] != c[k];
    assert forall j, k | 0 < j < k < |c| :: c[j] != c[k];
    var p, q := n.prev, n.next;
    p.next := q;
    q.prev := p;
    ghost var c' := Around(root, Except(ring, i));
    assert forall j | 0 <= j < |c'| :: c'[j] == if j <= i then c[j] else c[j + 1];
    forall j | 0 <= j < |c'| - 1 ensures c'[j].next == c'[j + 1] {
      assert j < i ==> c[j].next == c[j + 1];
      assert j > i ==> c[j + 1].next == c[j + 2];
    }
    forall j | 0 < j < |c'| ensures c'[j].prev == c'[j - 1] {
      assert j <= i ==> c[j].prev == c[j - 1];
      assert j > i + 1 ==> c[j + 1].prev == c[j];
    }
  }

  method PushFront(n: Node, root: Node, ghost ring: seq<Node>)
    requires Linked(root, ring) && n != root && n !in ring && root.next != null
    modifies root`next, root.next`prev, n`next, n`prev
    ensures Linked(root, [n] + ring)
  {
    ghost var c := Around(root, ring);
    assert c[0] == root && root.next == c[1];
    n.prev := root;
    n.next := root.next;
    var q := n.next;
    root.next := n;
    q.prev := n;
    ghost var c' := Around(root, [n] + ring);
    assert forall j | 0 <= j < |c'| :: c'[j] == if j == 0 then root else if j == 1 then n else c[j - 1];
  }

  // ---------- The node free list ----------

  const MAX_FREE_NODES: nat := 1024
  const MAX_FREE_KEYS: nat := 256

  function Following(chain: seq<Node>, i: nat): Node? {
    if i + 1 < |chain| then chain[i + 1] else null
  }

  /** A chain along `next` of scrubbed nodes, at most MAX_FREE_NODES long. */
  ghost predicate FreeChain(head: Node?, chain: seq<Node>, count: nat)
    reads chain`next, chain`key, chain`scid, chain`entry
  {
    && |chain| == count <= MAX_FREE_NODES && Distinct(chain)
    && head == (if chain == [] then null else chain[0])
    && (forall i | 0 <= i < |chain| :: chain[i].next == Following(chain, i))
    && (forall i | 0 <= i < |chain| :: chain[i].key == "" && chain[i].scid == "" && chain[i].entry == None)
  }

  /** Ring nodes, free nodes and the sentinel are different objects. */
  ghost predicate Apart(root: Node, ring: seq<Node>, chain: seq<Node>) {
    && root !in ring && root !in chain
    && forall n <- chain :: n !in ring
  }

  lemma ChainTail(head: Node?, chain: seq<Node>, count: nat)
    requires FreeChain(head, chain, count) && head != null
    ensures chain != [] && count == |chain| && head == chain[0] && FreeChain(head.next, chain[1..], count - 1)
            && chain[0] !in chain[1..]
    ensures chain == [chain[0]] + chain[1..]
  {
    var tail := chain[1..];
    assert forall i | 0 <= i < |tail| :: tail[i] == chain[i + 1];
    assert forall j | 0 < j < |chain| :: chain[0] != chain[j];
    assert chain[0].next == Following(chain, 0);
    forall i | 0 <= i < |tail| ensures tail[i].next == Following(tail, i) {
      assert chain[i + 1].next == Following(chain, i + 1);
    }
  }

  lemma ChainCons(n: Node, head: Node?, chain: seq<Node>, count: nat)
    requires FreeChain(head, chain, count) && count < MAX_FREE_NODES && n !in chain && n.next == head
    requires n.key == "" && n.scid == "" && n.entry == None
    ensures FreeChain(n, [n] + chain, count + 1)
  {
    var more := [n] + chain;
    assert forall i | 1 <= i < |more| :: more[i] == chain[i - 1];
    forall i | 0 <= i < |more| ensures more[i].next == Following(more, i) {
      assert i > 0 ==> chain[i - 1].next == Following(chain, i - 1);
    }
  }

  lemma CountOfChain(head: Node?, chain: seq<Node>, count: nat)
    requires FreeChain(head, chain, count)
    ensures |chain| == count
  {
  }

  lemma ApartMore(root: Node, ring: seq<Node>, chain: seq<Node>, n: Node)
    requires Apart(root, ring, chain) && n != root && n !in ring
    ensures Apart(root, ring, [n] + chain)
  {
  }

  /** Every node the cache links is in its footprint. */
  ghost predicate Owned(nodes: set<Node>, root: Node, ring: seq<Node>, chain: seq<Node>) {
    root in nodes && (forall n <- ring :: n in nodes) && (forall n <- chain :: n in nodes)
  }

  lemma OwnedMore(nodes: set<Node>, root: Node, ring: seq<Node>, chain: seq<Node>, n: Node)
    requires Owned(nodes - {n}, root, ring, chain)
    ensures Owned(nodes, root, ring, chain)
  {
  }

  lemma OwnedNodes(nodes: set<Node>, root: Node, ring: seq<Node>, chain: seq<Node>)
    requires Owned(nodes, root, ring, chain)
    ensures forall n | n == root || n in ring || n in chain :: n in nodes
    ensures chain != [] ==> Owned(nodes, root, ring, chain[1..])
  {
  }

  lemma OwnedFront(nodes: set<Node>, root: Node, ring: seq<Node>, chain: seq<Node>, n: Node, rest: seq<Node>)
    requires Owned(nodes, root, ring, chain) && n in nodes && forall x <- rest :: x in ring
    ensures Owned(nodes, root, [n] + rest, chain)
  {
  }

  lemma OwnedMove(nodes: set<Node>, root: Node, ring: seq<Node>, chain: seq<Node>, ring': seq<Node>, chain': seq<Node>)
    requires Owned(nodes, root, ring, chain)
    requires (forall n <- ring' :: n in ring || n in nodes) && (forall n <- chain' :: n in chain || n in nodes)
    ensures Owned(nodes, root, ring', chain')
  {
  }

  // ---------- The per-scid index ----------

  /** The backing store of one scid's key slice; it is recycled as an object. */
  class KeyList {
    var keys: seq<string>

    constructor ()
      ensures keys == []
    {
      keys := [];
    }
  }

  ghost function KeysOf(byScid: map<string, KeyList>): map<string, seq<string>>
    reads byScid.Values`keys
  {
    map s | s in byScid :: byScid[s].keys
  }

  /** Each indexed scid lists exactly its keys, once each. */
  ghost predicate Index(lists: map<string, seq<string>>, ks: set<string>) {
    && (forall s <- lists :: s != "" && lists[s] != [] && Distinct(lists[s]))
    && (forall s <- lists, k: string :: k in lists[s] <==> k in ks && ScidOf(k) == s)
    && (forall k <- ks :: ScidOf(k) != "" ==> ScidOf(k) in lists)
  }

  /** No two scids share a list. */
  ghost predicate Unshared(byScid: map<string, KeyList>) {
    forall s, t | s in byScid && t in byScid && s != t :: byScid[s] != byScid[t]
  }

  ghost predicate Lists(byScid: map<string, KeyList>, ks: set<string>)
    reads byScid.Values`keys
  {
    Index(KeysOf(byScid), ks) && Unshared(byScid)
  }

  lemma IndexWith(lists: map<string, seq<string>>, ks: set<string>, key: string)
    requires Index(lists, ks) && key !in ks && ScidOf(key) != ""
    ensures Index(lists[ScidOf(key) := GetOr(lists, ScidOf(key), []) + [key]], ks + {key})
  {
    var scid := ScidOf(key);
    var old_, more := GetOr(lists, scid, []), lists[scid := GetOr(lists, scid, []) + [key]];
    assert scid !in lists ==> forall k <- ks :: ScidOf(k) != scid;
    assert key !in old_;
    assert Distinct(old_ + [key]);
    forall s, k: string | s in more ensures k in more[s] <==> k in ks + {key} && ScidOf(k) == s {
      assert s == scid ==> (k in more[s] <==> k in old_ || k == key);
    }
  }

  lemma IndexWithUnlisted(lists: map<string, seq<string>>, ks: set<string>, key: string)
    requires Index(lists, ks) && ScidOf(key) == ""
    ensures Index(lists, ks + {key}) && Index(lists, ks - {key})
  {
  }

  /** The slot of the removed key takes the last key. */
  function SwapOut(keys: seq<string>, i: nat): seq<string>
    requires i < |keys|
  {
    keys[i := keys[|keys| - 1]][..|keys| - 1]
  }

  lemma SwapOutKeys(keys: seq<string>, i: nat)
    requires i < |keys| && Distinct(keys)
    ensures Distinct(SwapOut(keys, i)) && |SwapOut(keys, i)| == |keys| - 1
    ensures forall k :: k in SwapOut(keys, i) <==> k in keys && k != keys[i]
  {
    var less, last := SwapOut(keys, i), |keys| - 1;
    assert forall j | 0 <= j < last :: less[j] == if j == i then keys[last] else keys[j];
    forall k ensures k in less <==> k in keys && k != keys[i] {
      if k in keys && k != keys[i] {
        var j :| 0 <= j < |keys| && keys[j] == k;
        assert less[if j == last then i else j] == k;
      }
    }
  }

  /** What removing one listed key leaves: the shorter list, or no list when it was the last. */
  ghost function Unlisted(lists: map<string, seq<string>>, scid: string, rest: seq<string>): map<string, seq<string>> {
    if rest == [] then lists - {scid} else lists[scid := rest]
  }

  lemma IndexWithoutKey(lists: map<string, seq<string>>, ks: set<string>, key: string, rest: seq<string>)
    requires Index(lists, ks) && key in ks && ScidOf(key) != ""
    requires ScidOf(key) in lists && Distinct(rest) && forall k :: k in rest <==> k in lists[ScidOf(key)] && k != key
    ensures Index(Unlisted(lists, ScidOf(key), rest), ks - {key})
  {
    var scid := ScidOf(key);
    var after := Unlisted(lists, scid, rest);
    forall k | k in ks - {key} && ScidOf(k) != "" ensures ScidOf(k) in after {
      assert ScidOf(k) == scid ==> k in lists[scid];
    }
  }

  ghost function KeysWith(ks: set<string>, scid: string): set<string> { set k | k in ks && ScidOf(k) == scid }

  /** Dropping a whole list drops exactly its scid's keys. */
  lemma IndexWithoutScid(lists: map<string, seq<string>>, ks: set<string>, scid: string)
    requires Index(lists, ks) && scid in lists
    ensures Index(lists - {scid}, ks - KeysWith(ks, scid))
  {
  }

  /** Recycled lists are empty and none is in use. */
  ghost predicate Recycled(byScid: map<string, KeyList>, spare: seq<KeyList>)
    reads spare`keys
  {
    && |spare| <= MAX_FREE_KEYS && Distinct(spare)
    && (forall l <- spare :: l.keys == [])
    && (forall s <- byScid :: byScid[s] !in spare)
  }

  // ---------- Entries ----------

  /** Keys and nodes correspond one to one. */
  ghost predicate Keyed(items: map<string, Node>, ring: seq<Node>)
    reads ring`key
  {
    && (forall i | 0 <= i < |ring| :: ring[i].key in items && items[ring[i].key] == ring[i])
    && (forall k <- items :: items[k] in ring && items[k].key == k)
  }

  ghost predicate Loaded(ring: seq<Node>)
    reads ring`key, ring`scid, ring`entry
  {
    forall i | 0 <= i < |ring| :: ring[i].entry.Some? && ring[i].scid == ScidOf(ring[i].key)
  }

  ghost function Contents(ring: seq<Node>): (items: seq<Item>)
    requires Loaded(ring)
    reads ring`key, ring`scid, ring`entry
    ensures |items| == |ring|
    ensures forall i | 0 <= i < |ring| :: items[i] == Item(ring[i].key, ring[i].entry.value)
  {
    if ring == [] then []
    else
      var n := ring[|ring| - 1];
      Contents(ring[..|ring| - 1]) + [Item(n.key, n.entry.value)]
  }

  // ---------- The plain list ----------

  function Weight(items: seq<Item>): nat {
    if items == [] then 0 else Weight(items[..|items| - 1]) + |items[|items| - 1].entry.body|
  }

  /** Oldest entries go until the bodies fit. */
  function Evicted(items: seq<Item>, maxBytes: nat): seq<Item> {
    if items == [] || Weight(items) <= maxBytes then items else Evicted(items[..|items| - 1], maxBytes)
  }

  function Without(items: seq<Item>, key: string): seq<Item> {
    if items == [] then []
    else if items[0].key == key then Without(items[1..], key)
    else [items[0]] + Without(items[1..], key)
  }

  function Find(items: seq<Item>, key: string): Option<Entry> {
    if items == [] then None
    else if items[0].key == key then Some(items[0].entry)
    else Find(items[1..], key)
  }

  /** The list after a lookup: a found entry comes first. */
  function Recent(items: seq<Item>, key: string): seq<Item> {
    match Find(items, key)
    case None => items
    case Some(e) => [Item(key, e)] + Without(items, key)
  }

  function Stored(items: seq<Item>, key: string, e: Entry, maxBytes: nat): seq<Item> {
    Evicted([Item(key, e)] + Without(items, key), maxBytes)
  }

  function Purged(items: seq<Item>, scid: string): seq<Item> {
    if items == [] then []
    else if ScidOf(items[0].key) == scid then Purged(items[1..], scid)
    else [items[0]] + Purged(items[1..], scid)
  }

  class Cache {
    const maxBytes: nat
    const root: Node
    var size: int
    var items: map<string, Node>
    var free: Node?
    var freeCount: nat
    var freeKeys: seq<KeyList>
    var byScid: map<string, KeyList>
    ghost var ring: seq<Node>
    ghost var chain: seq<Node>
    ghost var nodes: set<Node>
    ghost var lists: set<KeyList>

    /** Ring, entries and byte count agree. */
    ghost predicate Body()
      reads this`ring, this`items, this`size, root`next, root`prev, ring`next, ring`prev, ring`key, ring`scid,
          ring`entry
    {
      Linked(root, ring) && Loaded(ring) && Keyed(items, ring) && size == Weight(Contents(ring))
    }

    /** The free list, apart from the ring. */
    ghost predicate Spares()
      reads this`ring, this`chain, this`free, this`freeCount, this`nodes, chain`next, chain`key, chain`scid, chain`entry
    {
      FreeChain(free, chain, freeCount) && Apart(root, ring, chain) && Owned(nodes, root, ring, chain)
    }

    /** The per-scid index lists the keys in ks. */
    ghost predicate Indexed(ks: set<string>)
      reads this`byScid, this`freeKeys, this`lists, byScid.Values`keys, freeKeys`keys
    {
      Lists(byScid, ks) && Recycled(byScid, freeKeys) && byScid.Values <= lists && forall l <- freeKeys :: l in lists
    }

    /** Everything but the byte bound, which Put restores last. */
    ghost predicate Coherent()
      reads this, root, ring, chain, byScid.Values, freeKeys
    {
      Body() && Spares() && Indexed(items.Keys)
    }

    ghost predicate Valid()
      reads this, root, ring, chain, byScid.Values, freeKeys
    {
      Coherent() && size <= maxBytes
    }

    /** The cached entries, most recently used first. */
    ghost function View(): seq<Item>
      requires Loaded(ring)
      reads this`ring, ring`key, ring`scid, ring`entry
    {
      Contents(ring)
    }

    /** A non-positive limit means 128 MiB. */
    constructor (limit: int)
      ensures Valid() && View() == [] && maxBytes == (if limit <= 0 then 128 * 1024 * 1024 else limit)
      ensures fresh(nodes) && fresh(lists)
    {
      maxBytes := if limit <= 0 then 128 * 1024 * 1024 else limit;
      size, items, free, freeCount, freeKeys, byScid := 0, map[], null, 0, [], map[];
      ring, chain := [], [];
      root := new Node("", "", None);
      new;
      nodes, lists := {root}, {};
      root.prev, root.next := root, root;
    }

    /** moveToFrontLocked; the sentinel's next is the front. */
    method MoveToFront(n: Node, ghost i: nat)
      requires Linked(root, ring) && i < |ring| && ring[i] == n
      requires n.prev != null && n.next != null && root.next != null
      modifies n`next, n`prev, n.prev`next, n.next`prev, root`next, root.next`prev, this`ring
      ensures Linked(root, ring) && ring == [n] + Except(old(ring), i)
    {
      if root.next == n {
        assert Around(root, ring)[0].next == Around(root, ring)[1] == ring[0];
        assert forall j | 0 < j < |ring| :: ring[0] != ring[j];
        assert ring == [n] + Except(ring, 0);
        return;
      }
      Neighbours(root, ring, i);
      assert Around(root, ring)[0].next == Around(root, ring)[1] == ring[0];
      assert i > 0 && ring[i - 1] in ring;
      Unlink(n, root, ring, i);
      ring := Except(ring, i);
      PushFront(n, root, ring);
      ring := [n] + ring;
    }

    /** newNodeLocked: a recycled node, or a new one; the ring is not touched. */
    method NewNode(key: string, scid: string, entry: Entry) returns (n: Node)
      requires Body() && Spares()
      modifies this`free, this`freeCount, this`chain, this`nodes, chain`key, chain`scid, chain`entry
      ensures Body() && Spares() && View() == old(View())
      ensures n.key == key && n.scid == scid && n.entry == Some(entry)
      ensures n != root && n !in ring && n !in chain && n in nodes && old(nodes) <= nodes && fresh(nodes - old(nodes))
    {
      hide *;
      Parts();
      if free == null {
        n := new Node(key, scid, Some(entry));
        assert nodes + {n} - {n} == nodes;
        nodes := nodes + {n};
        OwnedMore(nodes, root, ring, chain, n);
        Spared();
        return;
      }
      n := free;
      ChainTail(free, chain, freeCount);
      ApartNodes(root, ring, chain);
      ApartTail(root, ring, chain);
      OwnedNodes(nodes, root, ring, chain);
      Reuse(n, key, scid, entry);
    }

    method Reuse(n: Node, key: string, scid: string, entry: Entry)
      requires Body() && n == free && n != root && n !in ring && freeCount > 0
      requires chain != [] && n == chain[0] && n !in chain[1..]
      requires FreeChain(n.next, chain[1..], freeCount - 1) && Apart(root, ring, chain[1..])
               && Owned(nodes, root, ring, chain[1..])
      modifies this`free, this`freeCount, this`chain, n`key, n`scid, n`entry
      ensures Body() && Spares() && View() == old(View()) && chain == old(chain)[1..]
      ensures n.key == key && n.scid == scid && n.entry == Some(entry)
    {
      hide *;
      free := n.next;
      freeCount := freeCount - 1;
      chain := chain[1..];
      n.key, n.scid, n.entry := key, scid, Some(entry);
      Spared();
    }

    /** freeNodeLocked: scrubbed, and kept unless the list is full; the ring is not touched. */
    method FreeNode(n: Node)
      requires Body() && Spares() && n != root && n !in ring && n !in chain && n in nodes
      modifies this`free, this`freeCount, this`chain, n`key, n`scid, n`entry, n`prev, n`next
      ensures Body() && Spares() && View() == old(View())
      ensures n.key == "" && n.entry == None && n.prev == null
      ensures chain == if |old(chain)| >= MAX_FREE_NODES then old(chain) else [n] + old(chain)
    {
      hide *;
      Recycle(n);
    }

    method Recycle(n: Node)
      requires Spares() && n != root && n !in ring && n !in chain && n in nodes
      modifies this`free, this`freeCount, this`chain, n`key, n`scid, n`entry, n`prev, n`next
      ensures Spares() && n.key == "" && n.entry == None && n.prev == null
      ensures chain == if |old(chain)| >= MAX_FREE_NODES then old(chain) else [n] + old(chain)
    {
      hide FreeChain, Apart, Owned;
      ApartMore(root, ring, chain, n);
      OwnedMove(nodes, root, ring, chain, ring, [n] + chain);
      CountOfChain(free, chain, freeCount);
      n.key, n.scid, n.entry := "", "", None;
      n.prev := null;
      if freeCount >= MAX_FREE_NODES {
        n.next := null;
        return;
      }
      n.next := free;
      assert FreeChain(free, chain, freeCount);
      ChainCons(n, free, chain, freeCount);
      free := n;
      freeCount := freeCount + 1;
      chain := [n] + chain;
    }

    /** A ring node leaves the ring, the map and the byte count; the free list is not touched. */
    method Detach(n: Node, ghost i: nat)
      requires Body() && i < |ring| && ring[i] == n && Spares() && n.prev != null && n.next != null
      modifies n.prev`next, n.next`prev, this`items, this`size, this`ring
      ensures Body() && Spares() && n != root && n !in ring && n !in chain
      ensures ring == Except(old(ring), i) && items.Keys == old(items).Keys - {n.key}
      ensures View() == Except(old(View()), i)
    {
      hide *;
      Parts();
      NeighboursApart(root, ring, chain, i);
      DetachedApart(root, ring, chain, i);
      OwnedNodes(nodes, root, ring, chain);
      ExceptNodes(ring, i);
      OwnedMove(nodes, root, ring, chain, Except(ring, i), chain);
      LeaveRing(n, i);
      Spared();
    }

    lemma Parts()
      requires Body() && Spares()
      ensures Linked(root, ring) && Keyed(items, ring) && Loaded(ring)
      ensures FreeChain(free, chain, freeCount) && Apart(root, ring, chain) && Owned(nodes, root, ring, chain)
    {
    }

    lemma Spared()
      requires FreeChain(free, chain, freeCount) && Apart(root, ring, chain) && Owned(nodes, root, ring, chain)
      ensures Spares()
    {
    }

    method LeaveRing(n: Node, ghost i: nat)
      requires Body() && i < |ring| && ring[i] == n && n.prev != null && n.next != null
      modifies n.prev`next, n.next`prev, this`items, this`size, this`ring
      ensures Body() && ring == Except(old(ring), i) && items.Keys == old(items).Keys - {n.key} && n !in ring
      ensures View() == Except(old(View()), i)
    {
      hide Linked, Keyed, Loaded, Contents, Weight, Distinct, Except;
      LinkedDistinct(root, ring);
      KeyedExcept(items, ring, i);
      ContentsExcept(ring, i);
      WeightExcept(Contents(ring), i);
      NodeAt(ring, i);
      Unlink(n, root, ring, i);
      items := items - {n.key};
      size := size - |n.entry.value.body|;
      ring := Except(ring, i);
    }

    /** indexAddLocked: the scid's list, a recycled one or a new one takes the key. */
    method IndexAdd(scid: string, key: string, ghost ks: set<string>)
      requires Indexed(ks) && key !in ks && scid == ScidOf(key) && Body() && Spares()
      modifies this`byScid, this`freeKeys, this`lists, lists`keys
      ensures Indexed(ks + {key}) && Body() && Spares() && View() == old(View())
      ensures old(lists) <= lists && fresh(lists - old(lists))
    {
      hide *;
      ListKey(scid, key, ks);
    }

    method ListKey(scid: string, key: string, ghost ks: set<string>)
      requires Indexed(ks) && key !in ks && scid == ScidOf(key)
      modifies this`byScid, this`freeKeys, this`lists, lists`keys
      ensures Indexed(ks + {key})
      ensures old(lists) <= lists && fresh(lists - old(lists))
    {
      hide Index, ScidOf;
      if scid == "" {
        IndexWithUnlisted(KeysOf(byScid), ks, key);
        return;
      }
      ghost var listed := KeysOf(byScid);
      IndexWith(listed, ks, key);
      var l;
      if scid in byScid {
        l := byScid[scid];
      } else if |freeKeys| > 0 {
        l := freeKeys[|freeKeys| - 1];
        freeKeys := freeKeys[..|freeKeys| - 1];
      } else {
        l := new KeyList();
        lists := lists + {l};
      }
      l.keys := l.keys + [key];
      byScid := byScid[scid := l];
      assert KeysOf(byScid) == listed[scid := GetOr(listed, scid, []) + [key]];
    }

    /** freeKeysLocked: emptied and kept for reuse, up to the cap. */
    method FreeKeys(l: KeyList)
      requires Recycled(byScid, freeKeys) && l !in freeKeys && l !in byScid.Values
      modifies this`freeKeys, l`keys
      ensures Recycled(byScid, freeKeys)
      ensures freeKeys == if |old(freeKeys)| >= MAX_FREE_KEYS then old(freeKeys) else old(freeKeys) + [l]
    {
      if |freeKeys| >= MAX_FREE_KEYS {
        return;
      }
      l.keys := [];
      freeKeys := freeKeys + [l];
    }

    /** The scid's list leaves the index and is recycled. */
    method DropList(scid: string)
      requires scid in byScid && Unshared(byScid) && Recycled(byScid, freeKeys)
      requires byScid.Values <= lists && forall l <- freeKeys :: l in lists
      modifies this`byScid, this`freeKeys, lists`keys
      ensures Unshared(byScid) && Recycled(byScid, freeKeys)
      ensures byScid == old(byScid) - {scid} && KeysOf(byScid) == old(KeysOf(byScid)) - {scid}
      ensures byScid.Values <= lists && forall l <- freeKeys :: l in lists
    {
      var l := byScid[scid];
      byScid := byScid - {scid};
      FreeKeys(l);
    }

    /** indexRemoveLocked: the last key takes the removed one's slot; an emptied list is recycled. */
    method IndexRemove(scid: string, key: string, ghost ks: set<string>)
      requires Indexed(ks) && key in ks && scid == ScidOf(key) && Body() && Spares()
      modifies this`byScid, this`freeKeys, lists`keys
      ensures Indexed(ks - {key}) && Body() && Spares() && View() == old(View())
    {
      hide *;
      UnlistKey(scid, key, ks);
    }

    method UnlistKey(scid: string, key: string, ghost ks: set<string>)
      requires Indexed(ks) && key in ks && scid == ScidOf(key)
      modifies this`byScid, this`freeKeys, lists`keys
      ensures Indexed(ks - {key})
    {
      ghost var listed := KeysOf(byScid);
      if scid == "" {
        IndexWithUnlisted(listed, ks, key);
        return;
      }
      assert scid in byScid && key in listed[scid] && Distinct(listed[scid]) && listed[scid] != [];
      hide Index, ScidOf;
      var l := byScid[scid];
      var keys := RemoveKey(l.keys, key);
      IndexWithoutKey(listed, ks, key, keys);
      if |keys| == 0 {
        DropList(scid);
      } else {
        l.keys := keys;
        assert KeysOf(byScid) == listed[scid := keys];
      }
    }

    lemma BackParts()
      requires Coherent() && ring != []
      ensures Body() && Spares() && Indexed(items.Keys) && Loaded(ring) && |View()| == |ring|
      ensures var back := ring[|ring| - 1];
              && root.prev == back && back in nodes && back.key in items && back.scid == ScidOf(back.key)
              && back.prev != null && back.next != null && back.prev in nodes && back.next in nodes
    {
      hide *;
      Whole();
      Parts();
      var last := |ring| - 1;
      BackOfRing(root, ring);
      NodeAt(ring, last);
      Neighbours(root, ring, last);
      KeyOfNode(items, ring, last);
      OwnedNodes(nodes, root, ring, chain);
    }

    /** The least recently used entry goes. */
    method EvictBack()
      requires Coherent() && ring != []
      modifies this`ring, this`chain, this`items, this`size, this`free, this`freeCount, this`byScid, this`freeKeys
      modifies nodes`next, nodes`prev, nodes`key, nodes`scid, nodes`entry, lists`keys
      ensures Coherent() && View() == old(View())[..|old(View())| - 1]
    {
      hide *;
      BackParts();
      ghost var last, ks, xs := |ring| - 1, items.Keys, View();
      ExceptLast(xs, last);
      var back := root.prev;
      var key, scid := back.key, back.scid;
      Detach(back, last);
      IndexRemove(scid, key, ks);
      FreeNode(back);
      Assembled();
    }

    /** An entry becomes the most recent one. */
    method Touch(n: Node, ghost i: nat)
      requires Body() && Spares() && i < |ring| && ring[i] == n
      requires n.prev != null && n.next != null && root.next != null
      modifies n`next, n`prev, n.prev`next, n.next`prev, root`next, root.next`prev, this`ring
      ensures Body() && Spares() && ring == [n] + Except(old(ring), i)
      ensures View() == [old(View())[i]] + Except(old(View()), i)
    {
      hide *;
      Parts();
      Bodied();
      NeighboursApart(root, ring, chain, i);
      DetachedApart(root, ring, chain, i);
      FrontParts(items, root, ring, chain, i);
      OwnedNodes(nodes, root, ring, chain);
      ExceptNodes(ring, i);
      OwnedFront(nodes, root, ring, chain, n, Except(ring, i));
      ghost var front := [n] + Except(ring, i);
      assert Keyed(items, front) && Loaded(front);
      MoveToFront(n, i);
      assert ring == front && Loaded(front) && Keyed(items, front);
      Embodied();
      Spared();
    }

    /** An entry is replaced where it stands. */
    method SetEntry(n: Node, ghost i: nat, e: Entry)
      requires Body() && Spares() && i < |ring| && ring[i] == n && n !in chain && n.entry.Some?
      modifies n`entry, this`size
      ensures Body() && Spares() && View() == old(View())[i := Item(n.key, e)]
    {
      hide Linked, FreeChain, Apart, Contents, Weight;
      LinkedDistinct(root, ring);
      assert forall j | 0 <= j < |ring| && j != i :: ring[j] != n;
      WeightSet(Contents(ring), i, Item(n.key, e));
      ghost var before := Contents(ring);
      size := size - |n.entry.value.body|;
      n.entry := Some(e);
      size := size + |e.body|;
      assert Loaded(ring);
      SameContents(ring, before[i := Item(n.key, e)]);
    }

    /** A new node becomes the most recent entry. */
    method Enter(n: Node)
      requires Body() && Spares() && n != root && n !in ring && n !in chain && root.next != null
      requires n.entry.Some? && n.scid == ScidOf(n.key) && n.key !in items && n in nodes
      modifies root`next, root.next`prev, n`next, n`prev, this`ring, this`items, this`size
      ensures Body() && Spares() && View() == [Item(n.key, n.entry.value)] + old(View())
      ensures ring == [n] + old(ring) && items == old(items)[n.key := n]
    {
      hide *;
      Parts();
      Bodied();
      EnterParts(items, root, ring, chain, n);
      OwnedFront(nodes, root, ring, chain, n, ring);
      ghost var front := [n] + ring;
      PushFront(n, root, ring);
      assert Loaded(front) && Keyed(items[n.key := n], front) && FreeChain(free, chain, freeCount);
      items := items[n.key := n];
      size := size + |n.entry.value.body|;
      ring := front;
      Embodied();
      Spared();
    }

    lemma Bodied()
      requires Body()
      ensures Linked(root, ring) && Loaded(ring) && Keyed(items, ring) && size == Weight(Contents(ring))
              && View() == Contents(ring)
    {
    }

    lemma Embodied()
      requires Linked(root, ring) && Loaded(ring) && Keyed(items, ring) && size == Weight(Contents(ring))
      ensures Body() && View() == Contents(ring)
    {
    }

    /** evictLocked: the oldest entries go until the bodies fit. */
    method Evict()
      requires Coherent()
      modifies this`ring, this`chain, this`items, this`size, this`free, this`freeCount, this`byScid, this`freeKeys
      modifies nodes`next, nodes`prev, nodes`key, nodes`scid, nodes`entry, lists`keys
      ensures Valid() && View() == Evicted(old(View()), maxBytes)
    {
      hide *;
      Whole();
      ghost var xs := View();
      while size > maxBytes && |items| > 0
        invariant Coherent() && Loaded(ring) && Evicted(View(), maxBytes) == Evicted(xs, maxBytes)
        decreases |ring|
      {
        Whole();
        EmptyTogether(items, ring);
        EvictStep(View(), maxBytes);
        EvictBack();
        Whole();
      }
      Whole();
      EmptyTogether(items, ring);
      EvictDone(View(), maxBytes);
      WithinBound();
    }

    lemma WithinBound()
      requires Coherent() && size <= maxBytes
      ensures Valid()
    {
    }

    /** A hit becomes the most recent entry. */
    method Get(key: string) returns (r: Option<Entry>)
      requires Valid()
      modifies this`ring, nodes`next, nodes`prev
      ensures Valid() && r == Find(old(View()), key) && View() == Recent(old(View()), key)
    {
      hide *;
      Sound();
      Whole();
      Parts();
      LookupParts(items, ring, key);
      if key !in items {
        MissIsSame(View(), key);
        return None;
      }
      var n := items[key];
      ghost var i :| 0 <= i < |ring| && ring[i] == n;
      NodeAt(ring, i);
      Neighbours(root, ring, i);
      FrontOfRing(root, ring, chain);
      HitIsFront(View(), i);
      Touch(n, i);
      r := n.entry;
      Assembled();
      WithinBound();
    }

    /** A nil entry is ignored; a known key takes the new body; the oldest entries make room. */
    method Put(key: string, entry: Option<Entry>)
      requires Valid()
      modifies this`ring, this`chain, this`items, this`size, this`free, this`freeCount, this`byScid, this`freeKeys
      modifies this`nodes, this`lists, nodes`next, nodes`prev, nodes`key, nodes`scid, nodes`entry, lists`keys
      ensures Valid() && fresh(nodes - old(nodes)) && fresh(lists - old(lists))
      ensures View() == if entry.None? then old(View()) else Stored(old(View()), key, entry.value, maxBytes)
    {
      hide *;
      Sound();
      if entry.None? {
        return;
      }
      Whole();
      Parts();
      LookupParts(items, ring, key);
      if key in items {
        Replace(key, entry.value);
      } else {
        MissIsSame(View(), key);
        Insert(key, entry.value);
      }
      StoredIs(old(View()), key, entry.value, maxBytes);
      Whole();
      Evict();
    }

    lemma HitParts(key: string) returns (i: nat)
      requires Coherent() && key in items
      ensures Body() && Spares() && Indexed(items.Keys) && Loaded(ring) && |View()| == |ring|
      ensures i < |ring| && ring[i] == items[key] && items[key] in nodes && items[key] !in chain
      ensures items[key].entry.Some? && items[key].key == key && Without(View(), key) == Except(View(), i)
    {
      hide *;
      Whole();
      Parts();
      LookupParts(items, ring, key);
      i :| 0 <= i < |ring| && ring[i] == items[key];
      OwnedNodes(nodes, root, ring, chain);
      ApartNodes(root, ring, chain);
      NodeAt(ring, i);
      HitIsFront(View(), i);
    }

    lemma TouchParts(i: nat)
      requires Body() && Spares() && i < |ring|
      ensures root in nodes && ring[i] in nodes
      ensures ring[i].prev != null && ring[i].next != null && root.next != null
      ensures ring[i].prev in nodes && ring[i].next in nodes && root.next in nodes
    {
      hide *;
      Parts();
      OwnedNodes(nodes, root, ring, chain);
      Neighbours(root, ring, i);
      FrontOfRing(root, ring, chain);
    }

    method Replace(key: string, e: Entry)
      requires Coherent() && key in items
      modifies this`ring, this`size, nodes`next, nodes`prev, nodes`entry
      ensures Coherent() && View() == [Item(key, e)] + Without(old(View()), key)
    {
      hide *;
      ghost var i := HitParts(key);
      var n := items[key];
      ghost var xs := View();
      SetEntry(n, i, e);
      TouchParts(i);
      ExceptSet(xs, i, Item(key, e));
      Touch(n, i);
      Assembled();
    }

    method Insert(key: string, e: Entry)
      requires Coherent() && key !in items
      modifies this`ring, this`chain, this`items, this`size, this`free, this`freeCount, this`byScid, this`freeKeys
      modifies this`nodes, this`lists, nodes`next, nodes`prev, nodes`key, nodes`scid, nodes`entry, lists`keys
      ensures Coherent() && View() == [Item(key, e)] + old(View())
      ensures old(nodes) <= nodes && fresh(nodes - old(nodes)) && old(lists) <= lists && fresh(lists - old(lists))
    {
      hide *;
      Whole();
      ghost var ks := items.Keys;
      var scid := ScidOf(key);
      Admit(key, scid, e);
      IndexAdd(scid, key, ks);
      assert items.Keys == ks + {key};
      Assembled();
    }

    /** A node for the new entry, at the front. */
    method Admit(key: string, scid: string, e: Entry)
      requires Body() && Spares() && key !in items && scid == ScidOf(key)
      modifies this`ring, this`chain, this`items, this`size, this`free, this`freeCount
      modifies this`nodes, nodes`next, nodes`prev, nodes`key, nodes`scid, nodes`entry
      ensures Body() && Spares() && View() == [Item(key, e)] + old(View()) && items.Keys == old(items).Keys + {key}
      ensures old(nodes) <= nodes && fresh(nodes - old(nodes))
    {
      hide *;
      Parts();
      OwnedNodes(nodes, root, ring, chain);
      var n := NewNode(key, scid, e);
      Parts();
      FrontOfRing(root, ring, chain);
      OwnedNodes(nodes, root, ring, chain);
      Enter(n);
    }

    /** One key of a purged scid. */
    method DropKey(key: string)
      requires Body() && Spares() && key in items
      modifies this`ring, this`chain, this`items, this`size, this`free, this`freeCount
      modifies nodes`next, nodes`prev, nodes`key, nodes`scid, nodes`entry
      ensures Body() && Spares() && View() == Without(old(View()), key) && items.Keys == old(items).Keys - {key}
    {
      hide *;
      Parts();
      Bodied();
      LinkedDistinct(root, ring);
      LookupParts(items, ring, key);
      var n := items[key];
      ghost var i :| 0 <= i < |ring| && ring[i] == n;
      ghost var xs := View();
      NodeAt(ring, i);
      Neighbours(root, ring, i);
      OwnedNodes(nodes, root, ring, chain);
      HitIsFront(xs, i);
      Detach(n, i);
      FreeNode(n);
    }

    method DropKeys(keys: seq<string>)
      requires Body() && Spares() && Distinct(keys) && forall k <- keys :: k in items
      modifies this`ring, this`chain, this`items, this`size, this`free, this`freeCount
      modifies nodes`next, nodes`prev, nodes`key, nodes`scid, nodes`entry
      ensures Body() && Spares() && items.Keys == old(items).Keys - Among(keys)
              && View() == KeptOut(old(View()), Among(keys))
    {
      hide *;
      Parts();
      ghost var xs, ks := View(), items.Keys;
      KeepAll(xs);
      assert keys[..0] == [];
      NoneAmong();
      for j := 0 to |keys|
        invariant Body() && Spares() && Loaded(ring)
        invariant items.Keys == ks - Among(keys[..j]) && View() == KeptOut(xs, Among(keys[..j]))
      {
        OneMoreAmong(keys, j);
        KeptOutMore(xs, Among(keys[..j]), keys[j]);
        assert keys[j] in keys;
        DropKey(keys[j]);
        Parts();
      }
      assert keys[..|keys|] == keys;
    }

    /** Every entry of the scid goes; the others keep their order. */
    method InvalidatePrefix(scid: string)
      requires Valid()
      modifies this`ring, this`chain, this`items, this`size, this`free, this`freeCount, this`byScid, this`freeKeys
      modifies nodes`next, nodes`prev, nodes`key, nodes`scid, nodes`entry, lists`keys
      ensures Valid() && View() == if scid == "" then old(View()) else Purged(old(View()), scid)
    {
      hide *;
      Sound();
      if scid == "" {
        return;
      }
      Whole();
      ghost var xs, ks := View(), items.Keys;
      ListedKeys(byScid, ks, scid);
      LinkedDistinct(root, ring);
      KeysAreUnique(items, ring);
      if scid !in byScid {
        PurgedNothing(xs, ks, scid);
        return;
      }
      var keys := byScid[scid].keys;
      DropKeys(keys);
      PurgedKeys(xs, ks, keys, scid);
      DropScid(scid, ks);
      Assembled();
      KeptWeight(xs, Among(keys));
      Whole();
      WithinBound();
    }

    /** The scid's whole list leaves the index. */
    method DropScid(scid: string, ghost ks: set<string>)
      requires Indexed(ks) && scid in byScid && Body() && Spares()
      modifies this`byScid, this`freeKeys, lists`keys
      ensures Indexed(ks - KeysWith(ks, scid)) && Body() && Spares() && View() == old(View())
    {
      hide *;
      DropIndexed(scid, ks);
    }

    method DropIndexed(scid: string, ghost ks: set<string>)
      requires Indexed(ks) && scid in byScid
      modifies this`byScid, this`freeKeys, lists`keys
      ensures Indexed(ks - KeysWith(ks, scid))
    {
      hide Index, ScidOf;
      IndexWithoutScid(KeysOf(byScid), ks, scid);
      DropList(scid);
    }

    lemma Sound()
      requires Valid()
      ensures Coherent() && size <= maxBytes
    {
    }

    lemma Whole()
      requires Coherent()
      ensures Body() && Spares() && Indexed(items.Keys)
      ensures Linked(root, ring) && Keyed(items, ring) && Loaded(ring) && View() == Contents(ring)
      ensures Owned(nodes, root, ring, chain)
      ensures size == Weight(View()) && |View()| == |ring|
    {
    }

    lemma Assembled()
      requires Body() && Spares() && Indexed(items.Keys)
      ensures Coherent()
    {
    }
  }

  lemma ExceptLast<T>(q: seq<T>, last: nat)
    requires |q| == last + 1
    ensures Except(q, last) == q[..last]
  {
  }

  lemma BackOfRing(root: Node, ring: seq<Node>)
    requires Linked(root, ring) && ring != []
    ensures root.prev == ring[|ring| - 1]
  {
    assert Around(root, ring)[|ring| + 1].prev == Around(root, ring)[|ring|];
  }

  lemma KeyOfNode(items: map<string, Node>, ring: seq<Node>, i: nat)
    requires Keyed(items, ring) && i < |ring|
    ensures ring[i].key in items && items[ring[i].key] == ring[i]
  {
  }

  // ---------- Moving and removing a node ----------

  lemma {:induction false} WeightFront(x: Item, items: seq<Item>)
    ensures Weight([x] + items) == |x.entry.body| + Weight(items)
  {
    if items == [] {
      assert [x][..0] == [];
    } else {
      WeightFront(x, items[..|items| - 1]);
      assert ([x] + items)[..|items|] == [x] + items[..|items| - 1];
    }
  }

  /** The ring with its i-th node moved to the front holds the same entries. */
  lemma FrontParts(items: map<string, Node>, root: Node, ring: seq<Node>, chain: seq<Node>, i: nat)
    requires Keyed(items, ring) && Distinct(ring) && Loaded(ring) && Apart(root, ring, chain) && i < |ring|
    ensures var front := [ring[i]] + Except(ring, i);
            && Keyed(items, front) && Loaded(front) && Apart(root, front, chain)
            && Contents(front) == [Contents(ring)[i]] + Except(Contents(ring), i)
            && Weight(Contents(front)) == Weight(Contents(ring))
  {
    var front := [ring[i]] + Except(ring, i);
    FrontKeyed(items, ring, i);
    ContentsExcept(ring, i);
    WeightExcept(Contents(ring), i);
    WeightFront(Contents(ring)[i], Except(Contents(ring), i));
    ContentsFront(ring[i], Except(ring, i));
    hide Contents, Weight, Keyed;
    assert forall n <- front :: n in ring;
  }

  lemma WeightSet(items: seq<Item>, i: nat, x: Item)
    requires i < |items|
    ensures Weight(items[i := x]) == Weight(items) - |items[i].entry.body| + |x.entry.body|
  {
    WeightExcept(items, i);
    WeightExcept(items[i := x], i);
    assert Except(items[i := x], i) == Except(items, i);
  }

  lemma EnterParts(items: map<string, Node>, root: Node, ring: seq<Node>, chain: seq<Node>, n: Node)
    requires Linked(root, ring) && Keyed(items, ring) && Loaded(ring) && Apart(root, ring, chain)
    requires n != root && n !in ring && n !in chain && n.entry.Some? && n.scid == ScidOf(n.key) && n.key !in items
    ensures var front := [n] + ring;
            && Keyed(items[n.key := n], front) && Loaded(front) && Apart(root, front, chain)
            && Contents(front) == [Item(n.key, n.entry.value)] + Contents(ring)
            && Weight(Contents(front)) == Weight(Contents(ring)) + |n.entry.value.body|
    ensures root.next != null && root.next !in chain
  {
    hide *;
    FrontOfRing(root, ring, chain);
    ApartFront(root, ring, chain, n);
    EnterKeyed(items, ring, n);
    ContentsFront(n, ring);
    WeightFront(Item(n.key, n.entry.value), Contents(ring));
  }

  lemma FrontOfRing(root: Node, ring: seq<Node>, chain: seq<Node>)
    requires Linked(root, ring)
    ensures root.next == if ring == [] then root else ring[0]
    ensures Apart(root, ring, chain) ==> root.next !in chain
  {
    assert Around(root, ring)[0].next == Around(root, ring)[1];
  }

  lemma ApartFront(root: Node, ring: seq<Node>, chain: seq<Node>, n: Node)
    requires Apart(root, ring, chain) && n != root && n !in ring && n !in chain
    ensures Apart(root, [n] + ring, chain)
  {
  }

  lemma EnterKeyed(items: map<string, Node>, ring: seq<Node>, n: Node)
    requires Keyed(items, ring) && Loaded(ring)
    requires n !in ring && n.entry.Some? && n.scid == ScidOf(n.key) && n.key !in items
    ensures Keyed(items[n.key := n], [n] + ring) && Loaded([n] + ring)
  {
    var front := [n] + ring;
    assert forall j | 1 <= j < |front| :: front[j] == ring[j - 1];
    forall k | k in items ensures items[k] in front {
      assert items[k] in ring;
    }
  }

  lemma EmptyTogether(items: map<string, Node>, ring: seq<Node>)
    requires Keyed(items, ring)
    ensures |items| > 0 <==> ring != []
  {
    if ring != [] {
      assert ring[0].key in items;
    } else {
      assert items.Keys == {};
    }
  }

  lemma EvictStep(xs: seq<Item>, maxBytes: nat)
    requires Weight(xs) > maxBytes && xs != []
    ensures Evicted(xs, maxBytes) == Evicted(xs[..|xs| - 1], maxBytes)
  {
  }

  lemma EvictDone(xs: seq<Item>, maxBytes: nat)
    requires xs == [] || Weight(xs) <= maxBytes
    ensures Evicted(xs, maxBytes) == xs && Weight(xs) <= maxBytes
  {
  }

  /** A key is in the map exactly when an entry has it. */
  lemma LookupParts(items: map<string, Node>, ring: seq<Node>, key: string)
    requires Keyed(items, ring) && Distinct(ring) && Loaded(ring)
    ensures UniqueKeys(Contents(ring)) && (key !in items ==> forall j | 0 <= j < |ring| :: Contents(ring)[j].key != key)
    ensures key in items ==> items[key] in ring && items[key].key == key
  {
    KeysAreUnique(items, ring);
    forall j | 0 <= j < |ring| && key !in items ensures Contents(ring)[j].key != key {
      assert ring[j].key in items;
    }
  }

  lemma MissIsSame(xs: seq<Item>, key: string)
    requires forall j | 0 <= j < |xs| :: xs[j].key != key
    ensures Find(xs, key) == None && Recent(xs, key) == xs && Without(xs, key) == xs
  {
    NothingWithout(xs, key);
  }

  lemma HitIsFront(xs: seq<Item>, i: nat)
    requires UniqueKeys(xs) && i < |xs|
    ensures Find(xs, xs[i].key) == Some(xs[i].entry)
    ensures Recent(xs, xs[i].key) == [xs[i]] + Except(xs, i) && Without(xs, xs[i].key) == Except(xs, i)
  {
    ExceptIsWithout(xs, i);
  }

  lemma StoredIs(xs: seq<Item>, key: string, e: Entry, maxBytes: nat)
    ensures Stored(xs, key, e, maxBytes) == Evicted([Item(key, e)] + Without(xs, key), maxBytes)
  {
  }

  lemma ExceptSet(xs: seq<Item>, i: nat, x: Item)
    requires i < |xs|
    ensures xs[i := x][i] == x && Except(xs[i := x], i) == Except(xs, i)
  {
  }

  // ---------- Purging a scid ----------

  ghost function Among(keys: seq<string>): set<string> { set k | k in keys }

  lemma NoneAmong()
    ensures Among([]) == {}
  {
  }

  lemma OneMoreAmong(keys: seq<string>, j: nat)
    requires j < |keys| && Distinct(keys)
    ensures Among(keys[..j + 1]) == Among(keys[..j]) + {keys[j]} && keys[j] !in Among(keys[..j])
  {
    assert keys[..j + 1] == keys[..j] + [keys[j]];
  }

  ghost function KeptOut(items: seq<Item>, gone: set<string>): seq<Item> {
    if items == [] then []
    else if items[0].key in gone then KeptOut(items[1..], gone)
    else [items[0]] + KeptOut(items[1..], gone)
  }

  lemma {:induction false} KeepAll(items: seq<Item>)
    ensures KeptOut(items, {}) == items
  {
    if items != [] {
      KeepAll(items[1..]);
      assert items == [items[0]] + items[1..];
    }
  }

  lemma {:induction false} KeptOutMore(items: seq<Item>, gone: set<string>, key: string)
    ensures Without(KeptOut(items, gone), key) == KeptOut(items, gone + {key})
  {
    if items != [] {
      KeptOutMore(items[1..], gone, key);
      if items[0].key !in gone {
        assert ([items[0]] + KeptOut(items[1..], gone))[1..] == KeptOut(items[1..], gone);
      }
    }
  }

  /** The listed keys are exactly the cached keys of the scid. */
  lemma ListedKeys(byScid: map<string, KeyList>, ks: set<string>, scid: string)
    requires Lists(byScid, ks) && scid != ""
    ensures scid in byScid ==> Distinct(byScid[scid].keys) && forall k :: k in byScid[scid].keys <==>
            k in ks && ScidOf(k) == scid
    ensures scid !in byScid ==> forall k <- ks :: ScidOf(k) != scid
  {
    assert scid in byScid ==> KeysOf(byScid)[scid] == byScid[scid].keys;
  }

  lemma {:induction false} PurgedIsKeptOut(items: seq<Item>, gone: set<string>, scid: string)
    requires forall x <- items :: x.key in gone <==> ScidOf(x.key) == scid
    ensures Purged(items, scid) == KeptOut(items, gone)
  {
    hide ScidOf;
    if items != [] {
      assert items[0] in items && forall x <- items[1..] :: x in items;
      PurgedIsKeptOut(items[1..], gone, scid);
    }
  }

  lemma PurgedKeys(xs: seq<Item>, ks: set<string>, keys: seq<string>, scid: string)
    requires forall k :: k in ks <==> exists x <- xs :: x.key == k
    requires forall k :: k in keys <==> k in ks && ScidOf(k) == scid
    ensures Purged(xs, scid) == KeptOut(xs, Among(keys))
    ensures ks - Among(keys) == ks - KeysWith(ks, scid)
  {
    hide ScidOf;
    PurgedIsKeptOut(xs, Among(keys), scid);
  }

  lemma PurgedNothing(xs: seq<Item>, ks: set<string>, scid: string)
    requires forall k :: k in ks <==> exists x <- xs :: x.key == k
    requires forall k <- ks :: ScidOf(k) != scid
    ensures Purged(xs, scid) == xs
  {
    hide ScidOf;
    PurgedIsKeptOut(xs, {}, scid);
    KeepAll(xs);
  }

  lemma {:induction false} KeptWeight(items: seq<Item>, gone: set<string>)
    ensures Weight(KeptOut(items, gone)) <= Weight(items)
  {
    if items != [] {
      KeptWeight(items[1..], gone);
      WeightFront(items[0], items[1..]);
      WeightFront(items[0], KeptOut(items[1..], gone));
      assert items == [items[0]] + items[1..];
    }
  }

  lemma FrontKeyed(items: map<string, Node>, ring: seq<Node>, i: nat)
    requires Keyed(items, ring) && Loaded(ring) && i < |ring|
    ensures Keyed(items, [ring[i]] + Except(ring, i)) && Loaded([ring[i]] + Except(ring, i))
  {
    var front := [ring[i]] + Except(ring, i);
    assert forall j | 0 <= j < |front| :: front[j] == ring[if j == 0 then i else if j <= i then j - 1 else j];
    forall k | k in items ensures items[k] in front {
      var j :| 0 <= j < |ring| && ring[j] == items[k];
      assert front[if j == i then 0 else if j < i then j + 1 else j] == items[k];
    }
  }

  lemma ContentsFront(n: Node, ring: seq<Node>)
    requires Loaded([n] + ring) && Loaded(ring) && n.entry.Some?
    ensures Contents([n] + ring) == [Item(n.key, n.entry.value)] + Contents(ring)
  {
    hide Contents;
    var front := [n] + ring;
    forall j | 0 <= j < |front| ensures Contents(front)[j] == ([Item(n.key, n.entry.value)] + Contents(ring))[j] {
      assert front[j] == if j == 0 then n else ring[j - 1];
    }
  }

  lemma ExceptNodes(ring: seq<Node>, i: nat)
    requires i < |ring|
    ensures forall n <- Except(ring, i) :: n in ring
  {
  }

  lemma KeyedExcept(items: map<string, Node>, ring: seq<Node>, i: nat)
    requires Keyed(items, ring) && Distinct(ring) && i < |ring|
    ensures Keyed(items - {ring[i].key}, Except(ring, i)) && ring[i] !in Except(ring, i) && Distinct(Except(ring, i))
  {
    var rest, gone := Except(ring, i), ring[i].key;
    assert forall j | 0 <= j < |rest| :: rest[j] == ring[if j < i then j else j + 1];
    forall k | k in items && k != gone ensures items[k] in rest {
      var j :| 0 <= j < |ring| && ring[j] == items[k];
      assert rest[if j < i then j else j - 1] == items[k];
    }
  }

  lemma ExceptAt<T>(q: seq<T>, i: nat)
    requires i < |q|
    ensures |Except(q, i)| == |q| - 1
    ensures forall j | 0 <= j < |q| - 1 :: Except(q, i)[j] == q[if j < i then j else j + 1]
  {
  }

  lemma SameContents(ring: seq<Node>, items: seq<Item>)
    requires Loaded(ring) && |items| == |ring|
    requires forall j | 0 <= j < |ring| :: items[j] == Item(ring[j].key, ring[j].entry.value)
    ensures Contents(ring) == items
  {
    hide Contents;
  }

  lemma LoadedExcept(ring: seq<Node>, i: nat)
    requires Loaded(ring) && i < |ring|
    ensures Loaded(Except(ring, i))
  {
    hide Except;
    ExceptAt(ring, i);
  }

  lemma ContentsExcept(ring: seq<Node>, i: nat)
    requires Loaded(ring) && i < |ring|
    ensures Loaded(Except(ring, i)) && Contents(Except(ring, i)) == Except(Contents(ring), i)
  {
    hide *;
    LoadedExcept(ring, i);
    ExceptAt(ring, i);
    ExceptAt(Contents(ring), i);
  }

  lemma {:induction false} WeightExcept(items: seq<Item>, i: nat)
    requires i < |items|
    ensures Weight(Except(items, i)) == Weight(items) - |items[i].entry.body|
  {
    var last := |items| - 1;
    if i == last {
      assert Except(items, i) == items[..last];
    } else {
      WeightExcept(items[..last], i);
      assert Except(items, i)[..last - 1] == Except(items[..last], i);
    }
  }

  lemma NodeAt(ring: seq<Node>, i: nat)
    requires Loaded(ring) && i < |ring|
    ensures Contents(ring)[i] == Item(ring[i].key, ring[i].entry.value) && ring[i].entry.Some?
    ensures ring[i].scid == ScidOf(ring[i].key)
  {
  }

  lemma ApartTail(root: Node, ring: seq<Node>, chain: seq<Node>)
    requires Apart(root, ring, chain) && chain != []
    ensures Apart(root, ring, chain[1..])
  {
  }

  lemma ApartNodes(root: Node, ring: seq<Node>, chain: seq<Node>)
    requires Apart(root, ring, chain)
    ensures root !in chain && forall x <- chain :: x !in ring
  {
  }

  lemma Neighbours(root: Node, ring: seq<Node>, i: nat)
    requires Linked(root, ring) && i < |ring|
    ensures ring[i].prev == (if i == 0 then root else ring[i - 1])
    ensures ring[i].next == (if i == |ring| - 1 then root else ring[i + 1])
  {
    var c := Around(root, ring);
    assert c[i + 1].prev == c[i] && c[i + 1].next == c[i + 2];
  }

  lemma NeighboursApart(root: Node, ring: seq<Node>, chain: seq<Node>, i: nat)
    requires Linked(root, ring) && Apart(root, ring, chain) && i < |ring|
    ensures ring[i].prev !in chain && ring[i].next !in chain
  {
    Neighbours(root, ring, i);
  }

  lemma LinkedDistinct(root: Node, ring: seq<Node>)
    requires Linked(root, ring)
    ensures Distinct(ring) && root !in ring
  {
  }

  lemma DetachedApart(root: Node, ring: seq<Node>, chain: seq<Node>, i: nat)
    requires Linked(root, ring) && Apart(root, ring, chain) && i < |ring|
    ensures Distinct(ring) && ring[i] != root && ring[i] !in chain
    ensures Apart(root, Except(ring, i), chain)
  {
    var rest := Except(ring, i);
    assert forall n <- rest :: n in ring;
  }

  ghost predicate UniqueKeys(items: seq<Item>) {
    forall i, j | 0 <= i < j < |items| :: items[i].key != items[j].key
  }

  lemma KeysAreUnique(items: map<string, Node>, ring: seq<Node>)
    requires Keyed(items, ring) && Distinct(ring) && Loaded(ring)
    ensures UniqueKeys(Contents(ring)) && forall k :: k in items <==> exists x <- Contents(ring) :: x.key == k
  {
    var xs := Contents(ring);
    forall i, j | 0 <= i < j < |xs| ensures xs[i].key != xs[j].key {
      assert items[ring[i].key] == ring[i] && items[ring[j].key] == ring[j];
    }
    forall k ensures k in items <==> exists x <- xs :: x.key == k {
      if k in items {
        var i :| 0 <= i < |ring| && ring[i] == items[k];
        assert xs[i].key == k && xs[i] in xs;
      }
      if exists x <- xs :: x.key == k {
        var i :| 0 <= i < |xs| && xs[i].key == k;
        assert ring[i].key == k;
      }
    }
  }

  lemma {:induction false} ExceptIsWithout(items: seq<Item>, i: nat)
    requires UniqueKeys(items) && i < |items|
    ensures Except(items, i) == Without(items, items[i].key) && Find(items, items[i].key) == Some(items[i].entry)
  {
    var key := items[i].key;
    if i == 0 {
      assert forall j | 0 <= j < |items[1..]| :: items[1..][j].key != key;
      NothingWithout(items[1..], key);
      assert Except(items, 0) == items[1..];
    } else {
      assert items[0].key != key;
      ExceptIsWithout(items[1..], i - 1);
      assert Except(items, i) == [items[0]] + Except(items[1..], i - 1);
    }
  }

  lemma {:induction false} NothingWithout(items: seq<Item>, key: string)
    requires forall j | 0 <= j < |items| :: items[j].key != key
    ensures Without(items, key) == items && Find(items, key) == None
  {
    if items != [] {
      NothingWithout(items[1..], key);
      assert items == [items[0]] + items[1..];
    }
  }

  method RemoveKey(keys: seq<string>, key: string) returns (rest: seq<string>)
    requires key in keys && Distinct(keys)
    ensures Distinct(rest) && forall k :: k in rest <==> k in keys && k != key
  {
    for i := 0 to |keys|
      invariant forall j | 0 <= j < i :: keys[j] != key
    {
      if keys[i] == key {
        SwapOutKeys(keys, i);
        return keys[i := keys[|keys| - 1]][..|keys| - 1];
      }
    }
    assert false;
  }
}
