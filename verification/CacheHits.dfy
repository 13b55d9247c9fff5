/** What a lookup answers, by the history of the cache alone
    (src/api/cache/query_cache.c:236-338). */
module CacheHits {
  import opened QueryCache

  /** A store of a new key into a full cache throws out the key used last. */
  ghost predicate Evicts(a: Abs, op: Op, key: string) {
    && op.DoStore? && op.key != "" && |op.body| <= 262144
    && op.key !in a.m && |a.m| == 1024 && a.recent != [] && a.recent[0] == key
  }

  /** A lookup of the key that came too late, or for another version. */
  ghost predicate Drops(s: Op, op: Op, key: string)
    requires s.DoStore?
  {
    op.DoLookup? && op.key == key && (s.expire <= op.now || s.ver != op.ver)
  }

  /** Nothing after operation n has taken the key away again. */
  ghost predicate Undisturbed(ops: seq<Op>, n: nat, key: string)
    requires n < |ops| && ops[n].DoStore?
  {
    forall j {:trigger ops[..j]} :: n < j < |ops| ==> !Evicts(Play(ops[..j]), ops[j], key) && !Drops(ops[n], ops[j], key)
  }

  /** The key is in: its last accepted store was not disturbed. */
  ghost predicate Kept(ops: seq<Op>, key: string) {
    LastStore(ops, key) >= 0 && Undisturbed(ops, LastStore(ops, key), key)
  }

  lemma PlayLast(ops: seq<Op>)
    requires ops != []
    ensures Play(ops) == Apply(Play(ops[..|ops| - 1]), ops[|ops| - 1])
  {
  }

  /** What one more operation does to a key that was or was not in. */
  lemma StepIn(a: Abs, op: Op, key: string)
    requires Tracked(a) && key != ""
    ensures op.DoStore? && op.key == key && |op.body| <= 262144 ==> key in Apply(a, op).m && Apply(a, op).m[key] == Item(op.ver, op.body, op.expire)
    ensures !(op.DoStore? && op.key == key && |op.body| <= 262144) ==>
              (key in Apply(a, op).m <==>
                key in a.m && !Evicts(a, op, key) && !(op.DoLookup? && op.key == key && (a.m[key].expire <= op.now || a.m[key].ver != op.ver)))
    ensures !(op.DoStore? && op.key == key && |op.body| <= 262144) && key in Apply(a, op).m ==> key in a.m && Apply(a, op).m[key] == a.m[key]
  {
  }

  lemma UndisturbedLast(ops: seq<Op>, n: nat, key: string)
    requires n < |ops| - 1 && ops[n].DoStore?
    ensures var m := |ops| - 1;
            Undisturbed(ops, n, key) <==> Undisturbed(ops[..m], n, key) && !Evicts(Play(ops[..m]), ops[m], key) && !Drops(ops[n], ops[m], key)
  {
    var m := |ops| - 1;
    var before := ops[..m];
    forall j | n < j < m ensures before[..j] == ops[..j] && before[j] == ops[j] {
    }
    if Undisturbed(ops, n, key) {
      forall j | n < j < |before| ensures !Evicts(Play(before[..j]), before[j], key) && !Drops(before[n], before[j], key) {
        assert before[..j] == ops[..j];
      }
    }
    if Undisturbed(before, n, key) && !Evicts(Play(ops[..m]), ops[m], key) && !Drops(ops[n], ops[m], key) {
      forall j | n < j < |ops| ensures !Evicts(Play(ops[..j]), ops[j], key) && !Drops(ops[n], ops[j], key) {
        if j < m {
          assert before[..j] == ops[..j];
        }
      }
    }
  }

  /** A key is in the cache exactly when its last accepted store was not disturbed, and then
      with what that store gave. */
  lemma {:induction false} KeptIff(ops: seq<Op>, key: string)
    requires key != ""
    ensures key in Play(ops).m <==> Kept(ops, key)
    ensures Kept(ops, key) ==> var s := ops[LastStore(ops, key)]; Play(ops).m[key] == Item(s.ver, s.body, s.expire)
  {
    if ops != [] {
      var m := |ops| - 1;
      var before, op := ops[..m], ops[m];
      KeptIff(before, key);
      PlayTracked(before);
      PlayLast(ops);
      StepIn(Play(before), op, key);
      var n := LastStore(ops, key);
      if 0 <= n < m {
        UndisturbedLast(ops, n, key);
      }
    }
  }

  /** A lookup hits exactly when the last accepted store under its key was not disturbed, was
      made for this version and has not expired, and returns its body; it misses because
      there is no such store left, because it has expired, or because it was made for
      another version. */
  lemma LookupByHistory(ops: seq<Op>, key: string, ver: nat, now: nat)
    requires key != ""
    ensures var r := LookupSpec(Play(ops), key, ver, now).0;
            if !Kept(ops, key) then r == Miss(NoEntry)
            else
              var s := ops[LastStore(ops, key)];
              r == if s.expire <= now then Miss(Expired) else if s.ver != ver then Miss(VersionChanged) else Hit(s.body)
  {
    KeptIff(ops, key);
  }

  /** A lookup right after a store, before the lifetime is over, hits. */
  lemma StoreThenHit(ops: seq<Op>, key: string, ver: nat, body: string, expire: nat, now: nat)
    requires key != "" && |body| <= 262144 && now < expire
    ensures LookupSpec(Play(ops + [DoStore(key, ver, body, expire)]), key, ver, now).0 == Hit(body)
  {
    var ops' := ops + [DoStore(key, ver, body, expire)];
    assert Kept(ops', key) && ops'[LastStore(ops', key)] == DoStore(key, ver, body, expire);
    LookupByHistory(ops', key, ver, now);
  }

  /** The same of the cache itself, with the lifetime it was made with: a store at one time
      and a lookup before that time is over. */
  method StoreAndLookup(c: Cache, key: string, ver: nat, body: string, stored: nat, asked: nat) returns (r: Outcome)
    requires c.Valid() && key != "" && |body| <= 262144 && asked < stored + c.ttl
    modifies c, c.entries, c.heads
    ensures c.Valid() && r == Hit(body)
  {
    c.Store(key, ver, body, stored);
    r := c.Lookup(key, ver, asked);
  }

  /** A body over the limit, or an empty key, is not stored. */
  lemma NotStored(a: Abs, key: string, ver: nat, body: string, expire: nat)
    requires key == "" || |body| > 262144
    ensures StoreSpec(a, key, ver, body, expire) == a
  {
  }
}
