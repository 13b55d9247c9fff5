/** The lookups and stores of QueryCache are steps of CacheProtocol. */
module CacheRefines {
  import opened Basics
  import opened Versions
  import opened CacheProtocol
  import QueryCache

  /** The cache as the protocol sees it: tags and bodies. */
  ghost function View(a: QueryCache.Abs): map<string, Entry<string>> {
    map k | k in a.m :: Entry(a.m[k].ver, a.m[k].body)
  }

  /** c1 is c, or c after evicting one key. */
  ghost predicate MaybeEvicts<T, S>(exec: (T, S) -> T, q: Query<T, string>, c: State<T, S, string>, c1: State<T, S, string>) {
    c1 == c || exists key :: Step1(exec, q, c, c1, Evict(key))
  }

  lemma ViewDrop(a: QueryCache.Abs, key: string, recent: seq<string>)
    ensures View(QueryCache.Abs(a.m - {key}, recent)) == View(a) - {key}
  {
  }

  lemma ViewPut(a: QueryCache.Abs, key: string, ver: nat, body: string, expire: nat, recent: seq<string>)
    ensures View(QueryCache.Abs(a.m[key := QueryCache.Item(ver, body, expire)], recent)) == View(a)[key := Entry(ver, body)]
  {
  }

  lemma Evicts<T, S>(exec: (T, S) -> T, q: Query<T, string>, c: State<T, S, string>, key: string)
    ensures MaybeEvicts(exec, q, c, c.(cache := c.cache - {key}))
  {
    assert Step1(exec, q, c, c.(cache := c.cache - {key}), Evict(key));
  }

  /** A lookup that hits is the Hit step, with the body of the entry; one that misses is
      at most one eviction and then the Miss step. */
  lemma LookupIsStep<T, S>(exec: (T, S) -> T, q: Query<T, string>, c: State<T, S, string>, a: QueryCache.Abs, r: nat, now: nat)
    returns (c1: State<T, S, string>, c2: State<T, S, string>)
    requires c.cache == View(a) && r in c.reqs && c.reqs[r].phase.Asked? && c.reqs[r].sql != ""
    ensures var out := QueryCache.LookupSpec(a, c.reqs[r].sql, c.reqs[r].ver, now);
            && c2.cache == View(out.1)
            && (out.0.Hit? ==> Step1(exec, q, c, c2, Hit(r)) && c.cache[c.reqs[r].sql].body == out.0.body)
            && (out.0.Miss? ==> MaybeEvicts(exec, q, c, c1) && Step1(exec, q, c1, c2, Miss(r)))
  {
    var key := c.reqs[r].sql;
    var out := QueryCache.LookupSpec(a, key, c.reqs[r].ver, now);
    if out.0.Hit? {
      c1, c2 := c, c.(reqs := c.reqs - {r});
    } else {
      if key in a.m {
        c1 := c.(cache := c.cache - {key});
        Evicts(exec, q, c, key);
        ViewDrop(a, key, out.1.recent);
      } else {
        c1 := c;
      }
      c2 := c1.(reqs := c.reqs[r := c.reqs[r].(phase := Missed)]);
    }
  }

  /** A store is at most one eviction and then the Store step. */
  lemma StoreIsStep<T, S>(exec: (T, S) -> T, q: Query<T, string>, c: State<T, S, string>, a: QueryCache.Abs, r: nat, expire: nat)
    returns (c1: State<T, S, string>, c2: State<T, S, string>)
    requires c.cache == View(a) && r in c.reqs && c.reqs[r].phase.Answered?
    ensures var sql, body := c.reqs[r].sql, c.reqs[r].phase.body;
            && c2.cache == View(QueryCache.StoreSpec(a, sql, c.reqs[r].ver, body, expire))
            && MaybeEvicts(exec, q, c, c1) && Step1(exec, q, c1, c2, Store(r, QueryCache.Accepts(sql, body)))
  {
    var sql, ver, body := c.reqs[r].sql, c.reqs[r].ver, c.reqs[r].phase.body;
    if !QueryCache.Accepts(sql, body) {
      c1 := c;
    } else {
      c1 := RoomIsStep(exec, q, c, a, sql);
      var room := QueryCache.Room(a, sql);
      ViewPut(room, sql, ver, body, expire, [sql] + QueryCache.Without(room.recent, sql));
    }
    c2 := Stored(c1, r, QueryCache.Accepts(sql, body));
    StoredIsStep(exec, q, c1, r, QueryCache.Accepts(sql, body));
  }

  lemma RoomIsStep<T, S>(exec: (T, S) -> T, q: Query<T, string>, c: State<T, S, string>, a: QueryCache.Abs, sql: string) returns (c1: State<T, S, string>)
    requires c.cache == View(a)
    ensures MaybeEvicts(exec, q, c, c1) == true && c1.cache == View(QueryCache.Room(a, sql)) && c1.reqs == c.reqs && c1.w == c.w
  {
    c1 := c;
    if QueryCache.Room(a, sql) != a {
      c1 := c.(cache := c.cache - {a.recent[0]});
      Evicts(exec, q, c, a.recent[0]);
      ViewDrop(a, a.recent[0], QueryCache.Without(a.recent, a.recent[0]));
    }
  }

  ghost function Stored<T, S>(c: State<T, S, string>, r: nat, keep: bool): State<T, S, string>
    requires r in c.reqs && c.reqs[r].phase.Answered?
  {
    c.(reqs := c.reqs - {r}, cache := if keep then c.cache[c.reqs[r].sql := Entry(c.reqs[r].ver, c.reqs[r].phase.body)] else c.cache)
  }

  lemma StoredIsStep<T, S>(exec: (T, S) -> T, q: Query<T, string>, c: State<T, S, string>, r: nat, keep: bool)
    requires r in c.reqs && c.reqs[r].phase.Answered?
    ensures Step1(exec, q, c, Stored(c, r, keep), Store(r, keep)) == true
  {
  }
}
