/** The query cache of src/api/cache/query_cache.c: an intrusive hash table over a fixed
    array of entries, with LRU links.  Everything holds for every hash function; the
    source uses 64-bit FNV-1a. */
module QueryCache {
  import opened Basics

  const BUCKETS: nat := 2048
  const MAX_ENTRIES: nat := 1024
  const MAX_BODY: nat := 262144

  datatype Entry = Entry(inUse: bool, hash: nat, key: string, body: string, ver: nat, expire: nat,
                         nextHash: int, prevLru: int, nextLru: int)

  const Free: Entry := Entry(false, 0, "", "", 0, 0, -1, -1, -1)

  /** What the cache holds for a key. */
  datatype Item = Item(ver: nat, body: string, expire: nat)

  datatype Reason = NoReason | NoEntry | Expired | VersionChanged

  datatype Outcome = Hit(body: string) | Miss(reason: Reason)

  // ------------------------------------------------------------ hash table

  ghost predicate Distinct(c: seq<int>) {
    forall i, j :: 0 <= i < j < |c| ==> c[i] != c[j]
  }

  /** The k-th link of a bucket: an entry in use that leads to the next one. */
  ghost predicate LinkOk(es: seq<Entry>, c: seq<int>, k: nat, b: nat)
    requires k < |c|
  {
    && 0 <= c[k] < |es| && es[c[k]].inUse && es[c[k]].hash % BUCKETS == b
    && es[c[k]].nextHash == if k + 1 < |c| then c[k + 1] else -1
  }

  /** Following the links from the head of bucket b visits the entries c, and ends. */
  ghost predicate BucketOk(es: seq<Entry>, head: int, c: seq<int>, b: nat) {
    && head == (if c == [] then -1 else c[0])
    && (forall k :: 0 <= k < |c| ==> LinkOk(es, c, k, b))
    && Distinct(c)
  }

  ghost predicate Buckets(es: seq<Entry>, hs: seq<int>, chains: seq<seq<int>>) {
    |hs| == BUCKETS && |chains| == BUCKETS && forall b :: 0 <= b < BUCKETS ==> BucketOk(es, hs[b], chains[b], b)
  }

  /** An entry in use hangs in the bucket of its key's hash, and is the only one with
      its key. */
  ghost predicate EntryOk(hash: string -> nat, es: seq<Entry>, chains: seq<seq<int>>, slots: map<string, int>, i: nat)
    requires i < |es| && |chains| == BUCKETS
  {
    es[i].inUse ==> es[i].hash == hash(es[i].key) && i in chains[es[i].hash % BUCKETS] && es[i].key in slots && slots[es[i].key] == i
  }

  ghost predicate Entries(hash: string -> nat, es: seq<Entry>, chains: seq<seq<int>>, slots: map<string, int>) {
    && |es| == MAX_ENTRIES && |chains| == BUCKETS
    && (forall i :: 0 <= i < |es| ==> EntryOk(hash, es, chains, slots, i))
    && (forall k :: k in slots ==> 0 <= slots[k] < |es| && es[slots[k]].inUse && es[slots[k]].key == k)
  }

  /** The table: bucket chains that partition the entries in use by hash, and `slots`
      telling for each stored key the one entry that holds it. */
  ghost predicate Table(hash: string -> nat, es: seq<Entry>, hs: seq<int>, chains: seq<seq<int>>, slots: map<string, int>) {
    Buckets(es, hs, chains) && Entries(hash, es, chains, slots)
  }

  ghost function ItemOf(e: Entry): Item {
    Item(e.ver, e.body, e.expire)
  }

  ghost function MapOf(es: seq<Entry>, slots: map<string, int>): map<string, Item>
    requires forall k :: k in slots ==> 0 <= slots[k] < |es|
  {
    map k | k in slots :: ItemOf(es[slots[k]])
  }

  /** A change of other entries, or of this entry's payload, keeps a link. */
  ghost predicate SameLink(e: Entry, e': Entry) {
    e'.inUse == e.inUse && e'.hash == e.hash && e'.key == e.key && e'.nextHash == e.nextHash
  }

  lemma LinksInUse(es: seq<Entry>, head: int, c: seq<int>, b: nat)
    requires BucketOk(es, head, c, b)
    ensures forall k :: 0 <= k < |c| ==> 0 <= c[k] < |es| && es[c[k]].inUse && es[c[k]].hash % BUCKETS == b
  {
    forall k | 0 <= k < |c| ensures 0 <= c[k] < |es| && es[c[k]].inUse && es[c[k]].hash % BUCKETS == b {
      assert LinkOk(es, c, k, b);
    }
  }

  lemma BucketFrame(es: seq<Entry>, es': seq<Entry>, head: int, c: seq<int>, b: nat)
    requires BucketOk(es, head, c, b) && |es'| == |es|
    requires forall k :: 0 <= k < |c| ==> 0 <= c[k] < |es| && SameLink(es[c[k]], es'[c[k]])
    ensures BucketOk(es', head, c, b) == true
  {
    forall k | 0 <= k < |c| ensures LinkOk(es', c, k, b) {
      assert LinkOk(es, c, k, b);
    }
  }

  /** Changing only payloads keeps the table. */
  lemma PayloadOk(hash: string -> nat, es: seq<Entry>, hs: seq<int>, chains: seq<seq<int>>, slots: map<string, int>, i: nat, e: Entry)
    requires Table(hash, es, hs, chains, slots) && i < |es| && SameLink(es[i], e)
    ensures Table(hash, es[i := e], hs, chains, slots) == true
  {
    var es' := es[i := e];
    forall b | 0 <= b < BUCKETS ensures BucketOk(es', hs[b], chains[b], b) {
      LinksInUse(es, hs[b], chains[b], b);
      BucketFrame(es, es', hs[b], chains[b], b);
    }
    forall j | 0 <= j < |es'| ensures EntryOk(hash, es', chains, slots, j) {
      assert EntryOk(hash, es, chains, slots, j);
    }
  }

  // ---- linking a new entry at the head of its bucket

  lemma LinkBucket(es: seq<Entry>, head: int, c: seq<int>, b: nat, i: nat, e: Entry)
    requires BucketOk(es, head, c, b) && i < |es| && !es[i].inUse && e.inUse && e.hash % BUCKETS == b && e.nextHash == head
    ensures BucketOk(es[i := e], i, [i] + c, b) == true
  {
    var es', c' := es[i := e], [i] + c;
    forall k | 0 <= k < |c| ensures c[k] != i && LinkOk(es', c, k, b) {
      assert LinkOk(es, c, k, b);
    }
    forall k | 0 <= k < |c'| ensures LinkOk(es', c', k, b) {
      if k > 0 {
        assert LinkOk(es', c, k - 1, b);
      }
    }
  }

  lemma LinkOthers(es: seq<Entry>, head: int, c: seq<int>, b: nat, i: nat, e: Entry)
    requires BucketOk(es, head, c, b) && i < |es| && !es[i].inUse
    ensures BucketOk(es[i := e], head, c, b) == true && i !in c
  {
    forall k | 0 <= k < |c| ensures c[k] != i && 0 <= c[k] < |es| {
      assert LinkOk(es, c, k, b);
    }
    BucketFrame(es, es[i := e], head, c, b);
  }

  lemma LinkBuckets(es: seq<Entry>, hs: seq<int>, chains: seq<seq<int>>, i: nat, e: Entry, b: nat)
    requires Buckets(es, hs, chains) && i < |es| && !es[i].inUse && e.inUse && b == e.hash % BUCKETS && e.nextHash == hs[b]
    ensures Buckets(es[i := e], hs[b := i], chains[b := [i] + chains[b]]) == true
  {
    var es', hs', chains' := es[i := e], hs[b := i], chains[b := [i] + chains[b]];
    forall j | 0 <= j < BUCKETS ensures BucketOk(es', hs'[j], chains'[j], j) {
      if j == b {
        LinkBucket(es, hs[b], chains[b], b, i, e);
      } else {
        LinkOthers(es, hs[j], chains[j], j, i, e);
      }
    }
  }

  lemma LinkEntries(hash: string -> nat, es: seq<Entry>, chains: seq<seq<int>>, slots: map<string, int>, i: nat, e: Entry, b: nat)
    requires Entries(hash, es, chains, slots) && i < |es| && !es[i].inUse && e.inUse && e.key !in slots
    requires e.hash == hash(e.key) && b == e.hash % BUCKETS
    ensures Entries(hash, es[i := e], chains[b := [i] + chains[b]], slots[e.key := i]) == true
  {
    var es', chains', slots' := es[i := e], chains[b := [i] + chains[b]], slots[e.key := i];
    forall j | 0 <= j < |es'| ensures EntryOk(hash, es', chains', slots', j) {
      if j != i {
        assert EntryOk(hash, es, chains, slots, j);
      }
    }
  }

  // ---- unlinking an entry

  /** The chain without its p-th entry: the entry before it leads past it. */
  lemma UnlinkBucket(es: seq<Entry>, head: int, c: seq<int>, b: nat, p: nat)
    requires BucketOk(es, head, c, b) && p < |c|
    ensures forall k :: 0 <= k < |c| ==> 0 <= c[k] < |es|
    ensures p == 0 ==> BucketOk(es[c[p] := Free], es[c[p]].nextHash, c[..p] + c[p + 1..], b) == true
    ensures p > 0 ==> c[p - 1] != c[p] && BucketOk(es[c[p - 1] := es[c[p - 1]].(nextHash := es[c[p]].nextHash)][c[p] := Free], head, c[..p] + c[p + 1..], b) == true
  {
    LinksInUse(es, head, c, b);
    var c' := c[..p] + c[p + 1..];
    var es1 := if p == 0 then es else es[c[p - 1] := es[c[p - 1]].(nextHash := es[c[p]].nextHash)];
    var es' := es1[c[p] := Free];
    assert LinkOk(es, c, p, b);
    forall k | 0 <= k < |c'| ensures LinkOk(es', c', k, b) {
      var k0 := if k < p then k else k + 1;
      assert c'[k] == c[k0] && LinkOk(es, c, k0, b);
      assert k + 1 < |c'| ==> c'[k + 1] == if k + 1 < p then c[k + 1] else c[k + 2];
    }
    UnlinkDistinct(c, p);
  }

  lemma UnlinkDistinct(c: seq<int>, p: nat)
    requires Distinct(c) && p < |c|
    ensures Distinct(c[..p] + c[p + 1..]) && c[p] !in c[..p] + c[p + 1..]
    ensures forall x :: x in c && x != c[p] ==> x in c[..p] + c[p + 1..]
  {
    var c' := c[..p] + c[p + 1..];
    assert forall k :: 0 <= k < |c'| ==> c'[k] == c[if k < p then k else k + 1];
    forall x | x in c && x != c[p] ensures x in c' {
      var k :| 0 <= k < |c| && c[k] == x;
      assert c'[if k < p then k else k - 1] == x;
    }
  }

  ghost function Cut(c: seq<int>, p: nat): seq<int>
    requires p < |c|
  {
    c[..p] + c[p + 1..]
  }

  /** The entries after the p-th of a chain was unlinked and emptied. */
  ghost function Dropped(es: seq<Entry>, c: seq<int>, p: nat): seq<Entry>
    requires p < |c| && forall k :: 0 <= k < |c| ==> 0 <= c[k] < |es|
  {
    (if p == 0 then es else es[c[p - 1] := es[c[p - 1]].(nextHash := es[c[p]].nextHash)])[c[p] := Free]
  }

  lemma UnlinkBuckets(es: seq<Entry>, hs: seq<int>, chains: seq<seq<int>>, b: nat, p: nat)
    requires Buckets(es, hs, chains) && b < BUCKETS && p < |chains[b]|
    ensures forall k :: 0 <= k < |chains[b]| ==> 0 <= chains[b][k] < |es|
    ensures var c := chains[b]; Buckets(Dropped(es, c, p), if p == 0 then hs[b := es[c[p]].nextHash] else hs, chains[b := Cut(c, p)]) == true
  {
    var c := chains[b];
    LinksInUse(es, hs[b], c, b);
    var es' := Dropped(es, c, p);
    var hs', chains' := if p == 0 then hs[b := es[c[p]].nextHash] else hs, chains[b := Cut(c, p)];
    forall j | 0 <= j < BUCKETS ensures BucketOk(es', hs'[j], chains'[j], j) {
      if j == b {
        UnlinkBucket(es, hs[b], c, b, p);
      } else {
        LinksInUse(es, hs[j], chains[j], j);
        BucketFrame(es, es', hs[j], chains[j], j);
      }
    }
  }

  lemma UnlinkEntries(hash: string -> nat, es: seq<Entry>, chains: seq<seq<int>>, slots: map<string, int>, i: nat, b: nat, p: nat)
    requires Entries(hash, es, chains, slots) && i < |es| && es[i].inUse && b == es[i].hash % BUCKETS && p < |chains[b]| && chains[b][p] == i
    requires Distinct(chains[b]) && forall k :: 0 <= k < |chains[b]| ==> 0 <= chains[b][k] < |es|
    ensures Entries(hash, Dropped(es, chains[b], p), chains[b := Cut(chains[b], p)], slots - {es[i].key}) == true
    ensures MapOf(Dropped(es, chains[b], p), slots - {es[i].key}) == MapOf(es, slots) - {es[i].key}
  {
    var c := chains[b];
    UnlinkDistinct(c, p);
    var es', chains', slots' := Dropped(es, c, p), chains[b := Cut(c, p)], slots - {es[i].key};
    assert EntryOk(hash, es, chains, slots, i);
    forall j | 0 <= j < |es'| ensures EntryOk(hash, es', chains', slots', j) {
      assert EntryOk(hash, es, chains, slots, j);
    }
  }

  lemma KeyInChain(hash: string -> nat, es: seq<Entry>, chains: seq<seq<int>>, slots: map<string, int>, key: string)
    requires Entries(hash, es, chains, slots) && key in slots
    ensures slots[key] in chains[hash(key) % BUCKETS]
  {
    assert EntryOk(hash, es, chains, slots, slots[key]);
  }

  // ------------------------------------------------------------ counting

  /** Every key has its own slot, so there are as many keys as slots taken. */
  lemma {:induction false} SlotCount(slots: map<string, int>)
    requires forall k, l :: k in slots && l in slots && slots[k] == slots[l] ==> k == l
    ensures |slots.Values| == |slots|
    decreases |slots|
  {
    if slots != map[] {
      var k :| k in slots;
      var rest := slots - {k};
      SlotCount(rest);
      forall v | v in slots.Values && v != slots[k] ensures v in rest.Values {
        var l :| l in slots && slots[l] == v;
        assert l in rest && rest[l] == v;
      }
      assert slots.Values == rest.Values + {slots[k]};
      assert slots[k] !in rest.Values;
      assert slots == rest[k := slots[k]];
    }
  }

  lemma {:induction false} Below(n: nat) returns (all: set<int>)
    ensures (forall i :: i in all <==> 0 <= i < n) && |all| == n
  {
    all := {};
    if n > 0 {
      var rest := Below(n - 1);
      all := rest + {n - 1};
    }
  }

  lemma CountBound(hash: string -> nat, es: seq<Entry>, chains: seq<seq<int>>, slots: map<string, int>)
    requires Entries(hash, es, chains, slots)
    ensures |slots| <= MAX_ENTRIES && |slots| == |set i | 0 <= i < |es| && es[i].inUse|
    ensures |slots| == MAX_ENTRIES <==> forall i :: 0 <= i < |es| ==> es[i].inUse
  {
    var all := Below(MAX_ENTRIES);
    SlotCount(slots);
    assert slots.Values <= all;
    SubsetSize(slots.Values, all);
    forall i | 0 <= i < |es| && es[i].inUse ensures i in slots.Values {
      assert EntryOk(hash, es, chains, slots, i);
    }
    assert slots.Values == set i | 0 <= i < |es| && es[i].inUse;
    if forall i :: 0 <= i < |es| ==> es[i].inUse {
      SubsetSize(all, slots.Values);
    } else {
      var i :| 0 <= i < |es| && !es[i].inUse;
      assert i !in slots.Values;
      SubsetSize(slots.Values, all - {i});
    }
  }

  // ------------------------------------------------------------ LRU links

  /** The LRU list as the program holds it. */
  datatype Lru = Lru(es: seq<Entry>, head: int, tail: int)

  predicate Slot(i: int) {
    0 <= i < MAX_ENTRIES
  }

  function UnlinkLru(l: Lru, i: int): Lru
    requires |l.es| == MAX_ENTRIES && Slot(i) && (l.es[i].prevLru == -1 || Slot(l.es[i].prevLru)) && (l.es[i].nextLru == -1 || Slot(l.es[i].nextLru))
  {
    var prev, next := l.es[i].prevLru, l.es[i].nextLru;
    var es1 := if prev != -1 then l.es[prev := l.es[prev].(nextLru := next)] else l.es;
    var es2 := if next != -1 then es1[next := es1[next].(prevLru := prev)] else es1;
    Lru(es2[i := es2[i].(prevLru := -1, nextLru := -1)], if prev != -1 then l.head else next, if next != -1 then l.tail else prev)
  }

  /** What every reachable cache looks like: no entry is ever linked to another. */
  ghost predicate Unlinked(es: seq<Entry>) {
    forall i :: 0 <= i < |es| ==> es[i].prevLru == -1 && es[i].nextLru == -1
  }

  /** Unlinking an entry that was never linked empties the whole list. */
  lemma UnlinkForgets(l: Lru, i: int)
    requires |l.es| == MAX_ENTRIES && Slot(i) && Unlinked(l.es)
    ensures UnlinkLru(l, i) == Lru(l.es, -1, -1)
  {
    assert l.es[i := l.es[i].(prevLru := -1, nextLru := -1)] == l.es;
  }

  // ------------------------------------------------------------ recency

  /** Keys by their last use, the most recent first. */
  ghost function Without(s: seq<string>, k: string): seq<string> {
    if s == [] then [] else if s[0] == k then Without(s[1..], k) else [s[0]] + Without(s[1..], k)
  }

  ghost predicate NoTwice(s: seq<string>) {
    forall i, j :: 0 <= i < j < |s| ==> s[i] != s[j]
  }

  lemma {:induction false} WithoutMembers(s: seq<string>, k: string)
    ensures forall x :: x in Without(s, k) <==> x in s && x != k
    ensures NoTwice(s) ==> NoTwice(Without(s, k)) == true
    ensures k !in s ==> Without(s, k) == s
  {
    if s != [] {
      WithoutMembers(s[1..], k);
      assert s == [s[0]] + s[1..];
      assert NoTwice(s) ==> s[0] !in s[1..];
    }
  }

  /** The keys in use, ordered by use. */
  ghost predicate Ordered(recent: seq<string>, keys: set<string>) {
    NoTwice(recent) && forall k :: k in recent <==> k in keys
  }

  lemma OrderedWithout(recent: seq<string>, keys: set<string>, k: string)
    requires Ordered(recent, keys)
    ensures Ordered(Without(recent, k), keys - {k}) == true && Ordered([k] + Without(recent, k), keys + {k}) == true
  {
    WithoutMembers(recent, k);
  }

  lemma OrderedTouch(recent: seq<string>, slots: map<string, int>, k: string, i: int)
    requires Ordered(recent, slots.Keys) == true
    ensures Ordered([k] + Without(recent, k), slots[k := i].Keys) == true
  {
    OrderedWithout(recent, slots.Keys, k);
    assert slots[k := i].Keys == slots.Keys + {k};
  }

  lemma OrderedDrop(recent: seq<string>, slots: map<string, int>, k: string)
    requires Ordered(recent, slots.Keys) == true
    ensures Ordered(Without(recent, k), (slots - {k}).Keys) == true
  {
    OrderedWithout(recent, slots.Keys, k);
    assert (slots - {k}).Keys == slots.Keys - {k};
  }

  lemma {:induction false} OrderedLength(recent: seq<string>, keys: set<string>)
    requires Ordered(recent, keys)
    ensures |recent| == |keys|
  {
    if recent != [] {
      assert recent == [recent[0]] + recent[1..];
      OrderedLength(recent[1..], keys - {recent[0]});
    }
  }

  // ------------------------------------------------------------ what the cache does

  /** The cache as its callers see it: what is stored, and the keys by recency. */
  datatype Abs = Abs(m: map<string, Item>, recent: seq<string>)

  /** query_cache_lookup: an expired or outdated entry is dropped, a good one becomes
      the most recent. */
  ghost function LookupSpec(a: Abs, key: string, ver: nat, now: nat): (Outcome, Abs) {
    if key == "" then (Miss(NoReason), a)
    else if key !in a.m then (Miss(NoEntry), a)
    else if a.m[key].expire <= now then (Miss(Expired), Abs(a.m - {key}, Without(a.recent, key)))
    else if a.m[key].ver != ver then (Miss(VersionChanged), Abs(a.m - {key}, Without(a.recent, key)))
    else (Hit(a.m[key].body), Abs(a.m, [key] + Without(a.recent, key)))
  }

  ghost predicate Accepts(key: string, body: string) {
    key != "" && |body| <= MAX_BODY
  }

  /** Making room in a full cache throws out the entry used most recently. */
  ghost function Room(a: Abs, key: string): Abs {
    if key !in a.m && |a.m| == MAX_ENTRIES && a.recent != [] then Abs(a.m - {a.recent[0]}, Without(a.recent, a.recent[0])) else a
  }

  /** query_cache_store. */
  ghost function StoreSpec(a: Abs, key: string, ver: nat, body: string, expire: nat): Abs {
    if !Accepts(key, body) then a
    else
      var r := Room(a, key);
      Abs(r.m[key := Item(ver, body, expire)], [key] + Without(r.recent, key))
  }

  // ------------------------------------------------------------ the cache itself

  /** The table with its count and the keys by recency. */
  ghost predicate Core(hash: string -> nat, es: seq<Entry>, hs: seq<int>, count: int,
                       chains: seq<seq<int>>, slots: map<string, int>, recent: seq<string>) {
    Table(hash, es, hs, chains, slots) && count == |slots| && Ordered(recent, slots.Keys) && Unlinked(es)
  }

  /** The whole state: the LRU list is empty, or the most recent entry alone; in a full
      cache it is not empty. */
  ghost predicate State(hash: string -> nat, es: seq<Entry>, hs: seq<int>, head: int, tail: int, count: int,
                        chains: seq<seq<int>>, slots: map<string, int>, recent: seq<string>) {
    && Core(hash, es, hs, count, chains, slots, recent) && head == tail
    && (tail == -1 ==> count < MAX_ENTRIES)
    && (tail != -1 ==> recent != [] && slots[recent[0]] == tail)
  }

  class Cache {
    const hash: string -> nat
    const ttl: nat
    const entries: array<Entry>
    const heads: array<int>
    var lruHead: int
    var lruTail: int
    var count: int
    ghost var chains: seq<seq<int>>
    ghost var slots: map<string, int>
    ghost var recent: seq<string>

    ghost predicate Valid()
      reads this, entries, heads
    {
      && entries.Length == MAX_ENTRIES && heads.Length == BUCKETS
      && State(hash, entries[..], heads[..], lruHead, lruTail, count, chains, slots, recent)
    }

    /** Valid but for the LRU ends. */
    ghost predicate Half()
      reads this, entries, heads
    {
      && entries.Length == MAX_ENTRIES && heads.Length == BUCKETS
      && Core(hash, entries[..], heads[..], count, chains, slots, recent)
    }

    /** What is stored for each key, and the keys by recency. */
    ghost function Contents(): (a: Abs)
      requires Half()
      reads this, entries, heads
    {
      Abs(MapOf(entries[..], slots), recent)
    }

    /** Whatever has happened to a cache, it holds at most 1024 keys, each once in the
        order of use. */
    lemma ContentsTracked()
      requires Valid()
      ensures Tracked(Contents())
    {
      MapSize(entries[..], slots);
      OrderedLength(recent, slots.Keys);
      CountBound(hash, entries[..], chains, slots);
    }

    constructor (hash: string -> nat, ttl: nat)
      ensures Valid() && Contents() == Abs(map[], []) && this.ttl == ttl && this.hash == hash && fresh(entries) && fresh(heads)
    {
      this.hash, this.ttl := hash, ttl;
      lruHead, lruTail, count := -1, -1, 0;
      chains, slots, recent := seq(BUCKETS, i => []), map[], [];
      var es := new Entry[MAX_ENTRIES](i => Free);
      var hs := new int[BUCKETS](i => -1);
      entries, heads := es, hs;
    }

    /** find_entry_index. */
    method Find(key: string) returns (i: int)
      requires Valid()
      ensures i == -1 <==> key !in slots
      ensures i != -1 ==> i == slots[key] && Slot(i)
    {
      var h := hash(key);
      var b := h % BUCKETS;
      ghost var c := chains[b];
      ghost var k := 0;
      i := heads[b];
      LinksInUse(entries[..], heads[..][b], c, b);
      if key in slots {
        KeyInChain(hash, entries[..], chains, slots, key);
      }
      while i != -1
        invariant 0 <= k <= |c| && i == if k < |c| then c[k] else -1
        invariant forall j :: 0 <= j < k ==> Slot(c[j]) && entries[c[j]].key != key
        decreases |c| - k
      {
        assert LinkOk(entries[..], c, k, b);
        assert EntryOk(hash, entries[..], chains, slots, i);
        if entries[i].inUse && entries[i].hash == h && entries[i].key == key {
          return;
        }
        i := entries[i].nextHash;
        k := k + 1;
      }
    }

    /** unlink_from_bucket: found at position p of its chain, the entry before it (or
        the bucket head) leads past it. */
    method UnlinkFromBucket(i: int) returns (ghost b: nat, ghost p: nat)
      requires Valid() && Slot(i) && entries[i].inUse
      modifies entries, heads
      ensures b == old(entries[i]).hash % BUCKETS && p < |chains[b]| && chains[b][p] == i
      ensures p == 0 ==> heads[..] == old(heads[..])[b := old(entries[i]).nextHash]
      ensures p > 0 ==> heads[..] == old(heads[..])
      ensures forall k :: 0 <= k < |chains[b]| ==> 0 <= chains[b][k] < |old(entries[..])|
      ensures entries[..][i := Free] == Dropped(old(entries[..]), chains[b], p)
      ensures entries[i] == old(entries[i]).(nextHash := -1)
      ensures Unlinked(entries[..])
    {
      var bucket := entries[i].hash % BUCKETS;
      b := bucket;
      ghost var c := chains[b];
      assert BucketOk(entries[..], heads[..][b], c, b);
      LinksInUse(entries[..], heads[b], c, b);
      assert EntryOk(hash, entries[..], chains, slots, i);
      p := 0;
      var cur, prev := heads[bucket], -1;
      while cur != -1
        invariant 0 <= p < |c| && cur == c[p] && prev == (if p > 0 then c[p - 1] else -1)
        invariant entries[..] == old(entries[..]) && heads[..] == old(heads[..]) && i !in c[..p]
        decreases |c| - p
      {
        assert LinkOk(entries[..], c, p, b);
        if cur == i {
          Bypass(bucket, prev, cur);
          return;
        }
        prev, cur := cur, entries[cur].nextHash;
        p := p + 1;
      }
      assert false;
    }

    method Bypass(bucket: nat, prev: int, cur: int)
      requires entries.Length == MAX_ENTRIES && heads.Length == BUCKETS && bucket < BUCKETS && Slot(cur) && (prev == -1 || Slot(prev)) && prev != cur
      requires Unlinked(entries[..])
      modifies entries, heads
      ensures heads[..] == if prev == -1 then old(heads[..])[bucket := old(entries[cur]).nextHash] else old(heads[..])
      ensures var es := old(entries[..]);
              entries[..] == (if prev == -1 then es else es[prev := es[prev].(nextHash := es[cur].nextHash)])[cur := es[cur].(nextHash := -1)]
      ensures Unlinked(entries[..])
    {
      if prev == -1 {
        heads[bucket] := entries[cur].nextHash;
      } else {
        entries[prev] := entries[prev].(nextHash := entries[cur].nextHash);
      }
      entries[cur] := entries[cur].(nextHash := -1);
    }

    /** unlink_from_lru. */
    method UnlinkFromLru(i: int)
      requires entries.Length == MAX_ENTRIES && Slot(i)
      requires entries[i].prevLru == -1 || Slot(entries[i].prevLru)
      requires entries[i].nextLru == -1 || Slot(entries[i].nextLru)
      modifies this`lruHead, this`lruTail, entries
      ensures Lru(entries[..], lruHead, lruTail) == UnlinkLru(Lru(old(entries[..]), old(lruHead), old(lruTail)), i)
    {
      var prev, next := entries[i].prevLru, entries[i].nextLru;
      if prev != -1 {
        entries[prev] := entries[prev].(nextLru := next);
      } else {
        lruHead := next;
      }
      if next != -1 {
        entries[next] := entries[next].(prevLru := prev);
      } else {
        lruTail := prev;
      }
      entries[i] := entries[i].(prevLru := -1, nextLru := -1);
    }

    /** touch_lru_head, on a cache whose entries are all unlinked: the list becomes the
        touched entry alone. */
    method TouchLruHead(i: int)
      requires entries.Length == MAX_ENTRIES && Slot(i) && Unlinked(entries[..])
      modifies this`lruHead, this`lruTail, entries
      ensures entries[..] == old(entries[..]) && lruHead == i && lruTail == i
    {
      UnlinkForgets(Lru(entries[..], lruHead, lruTail), i);
      UnlinkFromLru(i);
      LinkAtHead(i);
      assert entries[..] == old(entries[..]);
    }

    /** The second half of touch_lru_head. */
    method LinkAtHead(i: int)
      requires entries.Length == MAX_ENTRIES && Slot(i) && (lruHead == -1 || Slot(lruHead))
      modifies this`lruHead, this`lruTail, entries
      ensures lruHead == i && lruTail == if old(lruTail) == -1 then i else old(lruTail)
      ensures old(lruHead) == -1 ==> entries[..] == old(entries[..])[i := old(entries[i]).(prevLru := -1, nextLru := -1)]
      ensures old(lruHead) != -1 ==> entries[..] == old(entries[..])[i := old(entries[i]).(prevLru := -1, nextLru := old(lruHead))][old(lruHead) := entries[old(lruHead)]]
      ensures old(lruHead) != -1 && old(lruHead) != i ==> entries[old(lruHead)] == old(entries[lruHead]).(prevLru := i)
    {
      entries[i] := entries[i].(prevLru := -1, nextLru := lruHead);
      if lruHead != -1 {
        entries[lruHead] := entries[lruHead].(prevLru := i);
      }
      lruHead := i;
      if lruTail == -1 {
        lruTail := i;
      }
    }

    /** remove_entry. */
    method Remove(i: int)
      requires Valid() == true
      modifies this, entries, heads
      ensures Valid() == true
      ensures Slot(i) && old(entries[i]).inUse ==>
                && Contents() == Abs(old(Contents()).m - {old(entries[i]).key}, Without(old(recent), old(entries[i]).key))
                && !entries[i].inUse
      ensures !(Slot(i) && old(entries[i]).inUse) ==> unchanged(this, entries, heads)
    {
      if i < 0 || i >= MAX_ENTRIES || !entries[i].inUse {
        return;
      }
      RemoveSlot(i);
    }

    method RemoveSlot(i: int)
      requires Valid() == true && Slot(i) && entries[i].inUse
      modifies this, entries, heads
      ensures Valid() == true && slots.Keys <= old(slots).Keys && !entries[i].inUse
      ensures Contents() == Abs(old(Contents()).m - {old(entries[i]).key}, Without(old(recent), old(entries[i]).key))
    {
      ghost var key := entries[i].key;
      ghost var b, p := Vacate(i);
      RemovedState(hash, old(entries[..]), old(heads[..]), old(lruHead), old(lruTail), count, chains, slots, recent, i, b, p);
      assert MapOf(entries[..], slots - {key}) == old(Contents()).m - {key};
      CountDown(b, p, key);
    }

    /** The end of remove_entry. */
    method CountDown(ghost b: nat, ghost p: nat, ghost key: string)
      requires count > 0 && entries.Length == MAX_ENTRIES && heads.Length == BUCKETS && b < |chains| && p < |chains[b]|
      requires State(hash, entries[..], heads[..], lruHead, lruTail, count - 1, chains[b := Cut(chains[b], p)], slots - {key}, Without(recent, key)) == true
      modifies this`count, this`chains, this`slots, this`recent
      ensures Valid() == true && slots.Keys <= old(slots).Keys
      ensures Contents() == Abs(MapOf(entries[..], old(slots) - {key}), Without(old(recent), key))
    {
      if count > 0 {
        count := count - 1;
      }
      chains := chains[b := Cut(chains[b], p)];
      slots := slots - {key};
      recent := Without(recent, key);
    }

    /** The array work of remove_entry. */
    method Vacate(i: int) returns (ghost b: nat, ghost p: nat)
      requires Valid() == true && Slot(i) && entries[i].inUse
      modifies this`lruHead, this`lruTail, entries, heads
      ensures lruHead == -1 && lruTail == -1 && entries[i] == Free && b < |chains|
      ensures b == old(entries[i]).hash % BUCKETS && p < |chains[b]| && chains[b][p] == i
      ensures heads[..] == if p == 0 then old(heads[..])[b := old(entries[i]).nextHash] else old(heads[..])
      ensures forall k :: 0 <= k < |chains[b]| ==> 0 <= chains[b][k] < |old(entries[..])|
      ensures entries[..] == Dropped(old(entries[..]), chains[b], p)
    {
      b, p := UnlinkFromBucket(i);
      UnlinkForgets(Lru(entries[..], lruHead, lruTail), i);
      UnlinkFromLru(i);
      ghost var es := entries[..];
      entries[i] := Free;
      assert entries[..] == es[i := Free];
    }

    /** The search loop of allocate_entry_index. */
    method FirstFree() returns (i: int)
      requires entries.Length == MAX_ENTRIES
      ensures i == -1 || (Slot(i) && !entries[i].inUse)
      ensures i == -1 <==> forall j :: 0 <= j < MAX_ENTRIES ==> entries[j].inUse
    {
      i := 0;
      while i < MAX_ENTRIES
        invariant 0 <= i <= MAX_ENTRIES && forall j :: 0 <= j < i ==> entries[j].inUse
      {
        if !entries[i].inUse {
          return;
        }
        i := i + 1;
      }
      i := -1;
    }

    /** allocate_entry_index: always finds a slot, if need be that of the most recent
        entry. */
    method Allocate(ghost key: string) returns (i: int)
      requires Valid() == true && key !in slots
      modifies this, entries, heads
      ensures Valid() == true && Slot(i) && !entries[i].inUse
      ensures Contents() == Room(old(Contents()), key) && slots.Keys <= old(slots).Keys
    {
      CountBound(hash, entries[..], chains, slots);
      MapSize(entries[..], slots);
      if count < MAX_ENTRIES {
        i := FirstFree();
        if i != -1 {
          return;
        }
      }
      if lruTail != -1 {
        assert entries[..][lruTail].key == recent[0];
        RemoveSlot(lruTail);
        CountBound(hash, entries[..], chains, slots);
        i := FirstFree();
      } else {
        i := -1;
      }
    }

    /** query_cache_lookup. */
    method Lookup(key: string, ver: nat, now: nat) returns (r: Outcome)
      requires Valid() == true
      modifies this, entries, heads
      ensures Valid() == true && (r, Contents()) == LookupSpec(old(Contents()), key, ver, now)
    {
      if key == "" {
        return Miss(NoReason);
      }
      var i := Find(key);
      if i == -1 {
        return Miss(NoEntry);
      }
      SlotEntry(hash, entries[..], chains, slots, key);
      if entries[i].expire <= now {
        Remove(i);
        return Miss(Expired);
      }
      if entries[i].ver != ver {
        Remove(i);
        return Miss(VersionChanged);
      }
      r := Hit(entries[i].body);
      Touch(key, i);
    }

    /** query_cache_store. */
    method Store(key: string, ver: nat, body: string, now: nat)
      requires Valid() == true
      modifies this, entries, heads
      ensures Valid() == true && Contents() == StoreSpec(old(Contents()), key, ver, body, now + ttl)
    {
      if key == "" || |body| > MAX_BODY {
        return;
      }
      var i := Prepare(key);
      ghost var a := Contents();
      Fill(key, i, ver, body, now + ttl);
      Touch(key, i);
      StoreInSteps(old(Contents()), a, key, ver, body, now + ttl);
    }

    /** The entry that is to hold a key: the one it has, or a new one. */
    method Prepare(key: string) returns (i: int)
      requires Valid() == true
      modifies this, entries, heads
      ensures Half() == true && key in slots && slots[key] == i && Prepared(old(Contents()), Contents(), key)
    {
      i := Find(key);
      MapSize(entries[..], slots);
      if i == -1 {
        i := Allocate(key);
        Enter(key, i);
      }
    }

    /** A free slot takes a new key, at the head of its bucket. */
    method Enter(key: string, i: int)
      requires Half() == true && key !in slots && Slot(i) && !entries[i].inUse
      modifies this, entries, heads
      ensures Half() == true && key in slots && slots[key] == i
      ensures Contents() == Abs(old(Contents()).m[key := Item(0, "", 0)], [key] + Without(old(recent), key))
    {
      var h := hash(key);
      var b := h % BUCKETS;
      ghost var e := Free.(inUse := true, hash := h, key := key, nextHash := heads[b]);
      EnteredState(hash, entries[..], heads[..], count, chains, slots, recent, e, i, b);
      entries[i] := Free.(inUse := true, hash := h, key := key, nextHash := heads[b]);
      heads[b] := i;
      count := count + 1;
      assert entries[..] == old(entries[..])[i := e] && heads[..] == old(heads[..])[b := i];
      chains := chains[b := [i] + chains[b]];
      slots := slots[key := i];
      recent := [key] + Without(recent, key);
    }

    /** The body, version and expiry of a stored key. */
    method Fill(ghost key: string, i: int, ver: nat, body: string, expire: nat)
      requires Half() == true && key in slots && slots[key] == i
      modifies entries
      ensures Half() == true && Contents() == Abs(old(Contents()).m[key := Item(ver, body, expire)], recent)
    {
      ghost var e := entries[..][i].(ver := ver, body := body, expire := expire);
      FilledState(hash, entries[..], heads[..], count, chains, slots, recent, key, i, e);
      entries[i] := entries[i].(body := body, ver := ver, expire := expire);
      assert entries[..] == old(entries[..])[i := e];
    }

    /** query_cache_clear. */
    method Clear()
      requires Valid()
      modifies this, entries, heads
      ensures Valid() && Contents() == Abs(map[], [])
    {
      var i := 0;
      while i < MAX_ENTRIES
        invariant 0 <= i <= MAX_ENTRIES && Unlinked(entries[..])
        invariant forall j :: 0 <= j < i ==> !entries[j].inUse
      {
        if entries[i].inUse {
          entries[i] := Free;
        }
        i := i + 1;
      }
      i := 0;
      while i < BUCKETS
        invariant 0 <= i <= BUCKETS && forall j :: 0 <= j < i ==> heads[j] == -1
        invariant Unlinked(entries[..]) && forall j :: 0 <= j < MAX_ENTRIES ==> !entries[j].inUse
      {
        heads[i] := -1;
        i := i + 1;
      }
      lruHead, lruTail, count := -1, -1, 0;
      chains, slots, recent := seq(BUCKETS, i => []), map[], [];
    }

    /** touch_lru_head on the entry of a stored key. */
    method Touch(ghost key: string, i: int)
      requires Half() && key in slots && slots[key] == i
      modifies this, entries
      ensures Valid() == true && Contents() == Abs(old(Contents()).m, [key] + Without(old(recent), key)) && slots == old(slots)
    {
      TouchLruHead(i);
      OrderedTouch(recent, slots, key, i);
      assert slots[key := i] == slots;
      recent := [key] + Without(recent, key);
    }
  }

  lemma MapSize(es: seq<Entry>, slots: map<string, int>)
    requires forall k :: k in slots ==> 0 <= slots[k] < |es|
    ensures |MapOf(es, slots)| == |slots| && forall k :: k in MapOf(es, slots) <==> k in slots
  {
    assert MapOf(es, slots).Keys == slots.Keys;
  }

  lemma SlotEntry(hash: string -> nat, es: seq<Entry>, chains: seq<seq<int>>, slots: map<string, int>, key: string)
    requires Entries(hash, es, chains, slots) && key in slots
    ensures Slot(slots[key]) && es[slots[key]].inUse && es[slots[key]].key == key
    ensures key in MapOf(es, slots) && MapOf(es, slots)[key] == ItemOf(es[slots[key]])
  {
  }

  lemma DroppedUnlinked(es: seq<Entry>, c: seq<int>, p: nat)
    requires Unlinked(es) && p < |c| && forall k :: 0 <= k < |c| ==> 0 <= c[k] < |es|
    ensures Unlinked(Dropped(es, c, p)) && |Dropped(es, c, p)| == |es|
  {
  }

  lemma RemovedState(hash: string -> nat, es: seq<Entry>, hs: seq<int>, head: int, tail: int, count: int,
                     chains: seq<seq<int>>, slots: map<string, int>, recent: seq<string>, i: int, b: nat, p: nat)
    requires State(hash, es, hs, head, tail, count, chains, slots, recent) == true && Slot(i) && es[i].inUse
    requires b == es[i].hash % BUCKETS && p < |chains[b]| && chains[b][p] == i
    requires forall k :: 0 <= k < |chains[b]| ==> 0 <= chains[b][k] < |es|
    ensures count > 0 && es[i].key in slots && slots[es[i].key] == i
    ensures State(hash, Dropped(es, chains[b], p), if p == 0 then hs[b := es[i].nextHash] else hs, -1, -1, count - 1,
                  chains[b := Cut(chains[b], p)], slots - {es[i].key}, Without(recent, es[i].key)) == true
    ensures MapOf(Dropped(es, chains[b], p), slots - {es[i].key}) == MapOf(es, slots) - {es[i].key}
  {
    RemovedTable(hash, es, hs, chains, slots, i, b, p);
    OrderedDrop(recent, slots, es[i].key);
    DropCount(hash, es, chains, slots, es[i].key);
    DroppedUnlinked(es, chains[b], p);
  }

  lemma DropCount(hash: string -> nat, es: seq<Entry>, chains: seq<seq<int>>, slots: map<string, int>, key: string)
    requires Entries(hash, es, chains, slots) == true && key in slots
    ensures 0 < |slots| <= MAX_ENTRIES && |slots - {key}| == |slots| - 1
  {
    CountBound(hash, es, chains, slots);
    assert (slots - {key}).Keys == slots.Keys - {key};
  }

  lemma RemovedTable(hash: string -> nat, es: seq<Entry>, hs: seq<int>, chains: seq<seq<int>>, slots: map<string, int>, i: int, b: nat, p: nat)
    requires Table(hash, es, hs, chains, slots) && Slot(i) && es[i].inUse
    requires b == es[i].hash % BUCKETS && p < |chains[b]| && chains[b][p] == i
    requires forall k :: 0 <= k < |chains[b]| ==> 0 <= chains[b][k] < |es|
    ensures es[i].key in slots && slots[es[i].key] == i
    ensures Table(hash, Dropped(es, chains[b], p), if p == 0 then hs[b := es[i].nextHash] else hs,
                  chains[b := Cut(chains[b], p)], slots - {es[i].key}) == true
    ensures MapOf(Dropped(es, chains[b], p), slots - {es[i].key}) == MapOf(es, slots) - {es[i].key}
  {
    assert EntryOk(hash, es, chains, slots, i);
    assert BucketOk(es, hs[b], chains[b], b);
    UnlinkBuckets(es, hs, chains, b, p);
    UnlinkEntries(hash, es, chains, slots, i, b, p);
  }

  /** Room was made for the key, which is then in, with an empty item. */
  ghost predicate Prepared(a: Abs, a': Abs, key: string) {
    if key in a.m then a' == a
    else a' == Abs(Room(a, key).m[key := Item(0, "", 0)], [key] + Without(Room(a, key).recent, key))
  }

  lemma StoreInSteps(a: Abs, a': Abs, key: string, ver: nat, body: string, expire: nat)
    requires Prepared(a, a', key) && Accepts(key, body)
    ensures StoreSpec(a, key, ver, body, expire) == Abs(a'.m[key := Item(ver, body, expire)], [key] + Without(a'.recent, key))
  {
    if key !in a.m {
      var r := Room(a, key);
      WithoutMembers(r.recent, key);
      assert ([key] + Without(r.recent, key))[1..] == Without(r.recent, key);
      WithoutMembers(Without(r.recent, key), key);
    }
  }

  lemma EnteredState(hash: string -> nat, es: seq<Entry>, hs: seq<int>, count: int,
                     chains: seq<seq<int>>, slots: map<string, int>, recent: seq<string>, e: Entry, i: nat, b: nat)
    requires Core(hash, es, hs, count, chains, slots, recent) && Slot(i) && !es[i].inUse && e.key !in slots
    requires e.inUse && e.hash == hash(e.key) && b == e.hash % BUCKETS && e.nextHash == hs[b] && e.prevLru == -1 && e.nextLru == -1
    ensures Core(hash, es[i := e], hs[b := i], count + 1, chains[b := [i] + chains[b]], slots[e.key := i], [e.key] + Without(recent, e.key)) == true
    ensures MapOf(es[i := e], slots[e.key := i]) == MapOf(es, slots)[e.key := ItemOf(e)]
  {
    LinkBuckets(es, hs, chains, i, e, b);
    LinkEntries(hash, es, chains, slots, i, e, b);
    OrderedTouch(recent, slots, e.key, i);
    forall k | k in slots ensures slots[k] != i {
      assert es[slots[k]].inUse;
    }
  }

  lemma FilledState(hash: string -> nat, es: seq<Entry>, hs: seq<int>, count: int,
                    chains: seq<seq<int>>, slots: map<string, int>, recent: seq<string>, key: string, i: int, e: Entry)
    requires Core(hash, es, hs, count, chains, slots, recent) && key in slots && slots[key] == i
    requires Slot(i) && SameLink(es[i], e) && e.prevLru == -1 && e.nextLru == -1
    ensures Core(hash, es[i := e], hs, count, chains, slots, recent) == true
    ensures MapOf(es[i := e], slots) == MapOf(es, slots)[key := ItemOf(e)]
  {
    PayloadOk(hash, es, hs, chains, slots, i, e);
    forall k | k in slots && k != key ensures slots[k] != i {
      assert es[slots[k]].key == k;
    }
  }

  // ------------------------------------------------------------ whole runs

  datatype Op =
    | DoLookup(key: string, ver: nat, now: nat)
    | DoStore(key: string, ver: nat, body: string, expire: nat)

  ghost function Apply(a: Abs, op: Op): Abs {
    match op
    case DoLookup(key, ver, now) => LookupSpec(a, key, ver, now).1
    case DoStore(key, ver, body, expire) => StoreSpec(a, key, ver, body, expire)
  }

  ghost function Play(ops: seq<Op>): Abs {
    if ops == [] then Abs(map[], []) else Apply(Play(ops[..|ops| - 1]), ops[|ops| - 1])
  }

  /** The position of the last accepted store under a key, -1 if there is none. */
  ghost function LastStore(ops: seq<Op>, key: string): (n: int)
    ensures -1 <= n < |ops|
    ensures n >= 0 ==> ops[n].DoStore? && ops[n].key == key && Accepts(key, ops[n].body)
    ensures forall j :: n < j < |ops| ==> !(ops[j].DoStore? && ops[j].key == key && Accepts(key, ops[j].body))
  {
    if ops == [] then -1
    else
      var n := |ops| - 1;
      if ops[n].DoStore? && ops[n].key == key && Accepts(key, ops[n].body) then n else LastStore(ops[..n], key)
  }

  lemma {:induction false} HoldsLastStored(ops: seq<Op>, key: string)
    requires key in Play(ops).m
    ensures LastStore(ops, key) >= 0
    ensures var s := ops[LastStore(ops, key)]; Play(ops).m[key] == Item(s.ver, s.body, s.expire)
  {
    if ops != [] {
      var n := |ops| - 1;
      if !(ops[n].DoStore? && ops[n].key == key && Accepts(key, ops[n].body)) {
        HoldsLastStored(ops[..n], key);
      }
    }
  }

  /** After any lookups and stores, a hit returns the body of the last accepted store
      under its key, which was made for the same version and has not expired. */
  lemma HitIsLastStored(ops: seq<Op>, key: string, ver: nat, now: nat)
    requires LookupSpec(Play(ops), key, ver, now).0.Hit?
    ensures LastStore(ops, key) >= 0
    ensures var s := ops[LastStore(ops, key)];
            LookupSpec(Play(ops), key, ver, now).0 == Hit(s.body) && s.ver == ver && now < s.expire
  {
    HoldsLastStored(ops, key);
  }

  ghost predicate Tracked(a: Abs) {
    Ordered(a.recent, a.m.Keys) && |a.m| == |a.recent| <= MAX_ENTRIES
  }

  lemma TrackedDrop(a: Abs, key: string)
    requires Tracked(a) == true && key in a.m
    ensures Tracked(Abs(a.m - {key}, Without(a.recent, key))) == true && |a.m - {key}| == |a.m| - 1
  {
    OrderedWithout(a.recent, a.m.Keys, key);
    assert (a.m - {key}).Keys == a.m.Keys - {key};
    OrderedLength(Without(a.recent, key), a.m.Keys - {key});
  }

  lemma TrackedPut(a: Abs, key: string, x: Item)
    requires Tracked(a) == true && (key in a.m || |a.m| < MAX_ENTRIES)
    ensures Tracked(Abs(a.m[key := x], [key] + Without(a.recent, key))) == true
  {
    OrderedWithout(a.recent, a.m.Keys, key);
    assert a.m[key := x].Keys == a.m.Keys + {key};
    OrderedLength([key] + Without(a.recent, key), a.m.Keys + {key});
    assert |a.m[key := x]| == |a.m.Keys + {key}|;
  }

  lemma TrackedTouch(a: Abs, key: string)
    requires Tracked(a) == true && key in a.m
    ensures Tracked(Abs(a.m, [key] + Without(a.recent, key))) == true
  {
    var keys, recent := a.m.Keys, [key] + Without(a.recent, key);
    OrderedWithout(a.recent, keys, key);
    PutBack(keys, key);
    OrderedLength(recent, keys);
  }

  lemma PutBack<T>(s: set<T>, x: T)
    requires x in s
    ensures s + {x} == s
  {
  }

  lemma LookupTracked(a: Abs, key: string, ver: nat, now: nat)
    requires Tracked(a) == true
    ensures Tracked(LookupSpec(a, key, ver, now).1) == true
  {
    if key in a.m {
      if a.m[key].expire <= now || a.m[key].ver != ver {
        TrackedDrop(a, key);
      } else {
        TrackedTouch(a, key);
      }
    }
  }

  lemma StoreTracked(a: Abs, key: string, ver: nat, body: string, expire: nat)
    requires Tracked(a)
    ensures Tracked(StoreSpec(a, key, ver, body, expire)) == true
  {
    if key !in a.m && |a.m| == MAX_ENTRIES {
      assert a.recent[0] in a.m;
      TrackedDrop(a, a.recent[0]);
    }
    TrackedPut(Room(a, key), key, Item(ver, body, expire));
  }

  /** Every reachable cache holds at most 1024 keys, each once in the order of use. */
  lemma {:induction false} PlayTracked(ops: seq<Op>)
    ensures Tracked(Play(ops)) == true
  {
    if ops != [] {
      var a := Play(ops[..|ops| - 1]);
      PlayTracked(ops[..|ops| - 1]);
      match ops[|ops| - 1] {
        case DoLookup(key, ver, now) => LookupTracked(a, key, ver, now);
        case DoStore(key, ver, body, expire) => StoreTracked(a, key, ver, body, expire);
      }
    }
  }

  /** A store that needs room throws out exactly the most recent key and no other, which
      is never the one unused for the longest time. */
  lemma EvictsTheNewest(a: Abs, key: string, ver: nat, body: string, expire: nat)
    requires Tracked(a) && |a.m| == MAX_ENTRIES && key !in a.m && Accepts(key, body)
    ensures a.recent[0] != a.recent[MAX_ENTRIES - 1]
    ensures StoreSpec(a, key, ver, body, expire).m == (a.m - {a.recent[0]})[key := Item(ver, body, expire)]
    ensures a.recent[MAX_ENTRIES - 1] in StoreSpec(a, key, ver, body, expire).m
  {
    assert a.recent[MAX_ENTRIES - 1] in a.recent;
  }

  /** So of two new keys stored one after the other into a full cache, only the second
      stays. */
  lemma SecondReplacesFirst(a: Abs, k1: string, k2: string, ver: nat, b1: string, b2: string, expire: nat)
    requires Tracked(a) && |a.m| == MAX_ENTRIES && k1 !in a.m && k2 !in a.m && k1 != k2 && Accepts(k1, b1) && Accepts(k2, b2)
    ensures var a2 := StoreSpec(StoreSpec(a, k1, ver, b1, expire), k2, ver, b2, expire); k1 !in a2.m && k2 in a2.m
  {
    var a1 := StoreSpec(a, k1, ver, b1, expire);
    EvictsTheNewest(a, k1, ver, b1, expire);
    assert a.recent[0] in a.m;
    assert a1.m.Keys == a.m.Keys - {a.recent[0]} + {k1};
    assert |a1.m| == |a1.m.Keys| == MAX_ENTRIES;
  }

  // ------------------------------------------------------------ a full cache

  /** Keys of different lengths. */
  function KeyOf(i: nat): (k: string)
    ensures |k| == i + 1
  {
    seq(i + 1, _ => 'k')
  }

  /** Storing n keys one after another. */
  function Stores(n: nat): seq<Op> {
    if n == 0 then [] else Stores(n - 1) + [DoStore(KeyOf(n - 1), 1, "", 1)]
  }

  lemma StoresNext(m: nat, n: nat)
    requires n == m + 1
    ensures Play(Stores(n)) == StoreSpec(Play(Stores(m)), KeyOf(m), 1, "", 1)
  {
    StoresPush(m, n);
    PlayPush(Stores(m), DoStore(KeyOf(m), 1, "", 1));
  }

  lemma StoresPush(m: nat, n: nat)
    requires n == m + 1
    ensures Stores(n) == Stores(m) + [DoStore(KeyOf(m), 1, "", 1)]
  {
  }

  lemma PlayPush(ops: seq<Op>, op: Op)
    ensures Play(ops + [op]) == Apply(Play(ops), op)
  {
    assert (ops + [op])[..|ops|] == ops;
  }

  /** The first n keys are in, the last of them on top. */
  ghost predicate HasFirst(a: Abs, n: nat) {
    && |a.m| == n && (forall k :: k in a.m ==> |k| <= n) && (forall i: nat {:trigger KeyOf(i)} :: i < n ==> KeyOf(i) in a.m)
    && (n > 0 ==> a.recent != [] && a.recent[0] == KeyOf(n - 1))
  }

  lemma HasNext(a: Abs, m: nat, n: nat)
    requires HasFirst(a, m) && m < MAX_ENTRIES && n == m + 1
    ensures HasFirst(StoreSpec(a, KeyOf(m), 1, "", 1), n) == true
  {
    var key := KeyOf(m);
    assert key !in a.m;
    assert StoreSpec(a, key, 1, "", 1).m == a.m[key := Item(1, "", 1)];
  }

  lemma {:induction false} StoresFill(n: nat)
    requires n <= MAX_ENTRIES
    ensures HasFirst(Play(Stores(n)), n) == true
  {
    if n != 0 {
      var m := n - 1;
      StoresFill(m);
      StoresNext(m, n);
      HasNext(Play(Stores(m)), m, n);
    }
  }

  lemma NewestGoes(a: Abs, first: string, key: string)
    requires Tracked(a) && |a.m| == MAX_ENTRIES && key !in a.m && key != "" && first in a.m && first != a.recent[0]
    ensures var a' := StoreSpec(a, key, 1, "", 1); first in a'.m && a.recent[0] !in a'.m
  {
    EvictsTheNewest(a, key, 1, "", 1);
    assert a.recent[0] in a.m;
  }

  /** A full cache is reached, and then the key stored last goes for the next one while the
      key stored first stays. */
  lemma FullCacheExample()
    ensures var a := Play(Stores(MAX_ENTRIES)); var a' := Play(Stores(MAX_ENTRIES + 1));
            |a.m| == MAX_ENTRIES && KeyOf(0) in a'.m && KeyOf(MAX_ENTRIES - 1) in a.m && KeyOf(MAX_ENTRIES - 1) !in a'.m
  {
    var n := MAX_ENTRIES;
    StoresFill(n);
    StoresNext(n, n + 1);
    PlayTracked(Stores(n));
    NewestGoes(Play(Stores(n)), KeyOf(0), KeyOf(n));
  }
}
