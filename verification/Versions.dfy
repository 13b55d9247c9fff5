/** Table versions under concurrent transactions: the step system of src/db/dbapi.c
    and src/db/mvcc.c.

    Every step below is one critical section of the program.  Versions of a table
    hang in a chain, newest first, each with its address; freed addresses may be
    reused.  The log is history only: it records, per committed transaction, the
    write statements it ran on each table.  `exec` is what a statement does to a
    table; the results hold for every such function. */
module Versions {
  import opened Basics

  datatype Ver<+T> = Ver(ptr: nat, id: nat, data: T)

  type Chain<T> = seq<Ver<T>>

  /** TxTab: the base version a transaction saw, and its private copy once it wrote. */
  datatype TxTab<+T, +S> = TxTab(base: nat, work: Option<T>, stmts: seq<S>)

  type Writes<S> = map<string, seq<S>>

  datatype World<T, S> = World(
    curVer: nat,                              // Mvcc.cur_ver
    snaps: multiset<nat>,                     // Mvcc.snaps
    live: map<nat, nat>,                      // snapshot id held by each open handle
    tabs: map<string, Chain<T>>,              // loaded tables
    disk: map<string, T>,                     // what tab_load would read
    txs: map<nat, map<string, TxTab<T, S>>>,  // open transactions
    gc: multiset<nat>,                        // keep ids read by mv_stat, not yet used
    log: seq<Writes<S>>)                      // log[i]: writes of version i + 2

  // ------------------------------------------------------------ chains

  /** tab_vis: position of the newest version not newer than the snapshot. */
  function VisIdx<T>(c: Chain<T>, snap: nat): (i: nat)
    ensures i <= |c|
    ensures forall j :: 0 <= j < i ==> c[j].id > snap
    ensures i < |c| ==> c[i].id <= snap
  {
    if c == [] || c[0].id <= snap then 0 else 1 + VisIdx(c[1..], snap)
  }

  /** prune_tab: keep 0 drops everything below the head, another keep id everything
      below the version it sees. */
  function Prune<T>(c: Chain<T>, keep: nat): (r: Chain<T>)
    ensures |r| <= |c| && r == c[..|r|]
    ensures c != [] ==> r != []
  {
    if c == [] then []
    else if keep == 0 then c[..1]
    else
      var i := VisIdx(c, keep);
      if i == |c| then c else c[..i + 1]
  }

  predicate Descending<T>(c: Chain<T>) {
    forall i, j :: 0 <= i < j < |c| ==> c[i].id > c[j].id
  }

  /** A version's oldest surviving id. */
  function Oldest<T>(c: Chain<T>): nat
    requires c != []
  {
    c[|c| - 1].id
  }

  // ------------------------------------------------------------ serial execution

  ghost function Replay<T, S>(exec: (T, S) -> T, d: T, stmts: seq<S>): T {
    if stmts == [] then d else exec(Replay(exec, d, stmts[..|stmts| - 1]), stmts[|stmts| - 1])
  }

  /** One table after running the committed transactions one by one, in order. */
  ghost function Serial<T, S>(exec: (T, S) -> T, d: T, log: seq<Writes<S>>, t: string): T {
    if log == [] then d
    else
      var d' := Serial(exec, d, log[..|log| - 1], t);
      var w := log[|log| - 1];
      if t in w then Replay(exec, d', w[t]) else d'
  }

  /** A table as of version v: the first v - 1 commits applied. */
  ghost function At<T, S>(exec: (T, S) -> T, w: World<T, S>, t: string, v: nat): T
    requires t in w.disk && 1 <= v <= |w.log| + 1
  {
    Serial(exec, w.disk[t], w.log[..v - 1], t)
  }

  // ------------------------------------------------------------------ steps

  datatype Step<T, S> =
    | Begin(h: nat)                                  // db_begin
    | Snap(h: nat)                                   // db_snap
    | Load(t: string, ptr: nat)                      // need_ent reading a table file
    | View(h: nat, t: string)                        // tx_view
    | Write(h: nat, t: string, s: S, seen: T)        // tx_make_work and exec_stmt
    | Commit(h: nat, ptrs: map<string, nat>)         // db_commit, check passed
    | Abort(h: nat)                                  // db_abort, or leaving after a commit
    | Release(h: nat)                                // mv_gc
    | Stat                                           // mv_stat in gc_tabs
    | PruneAll(keep: nat)                            // the pruning loop of gc_tabs

  ghost predicate Init<T, S>(w: World<T, S>) {
    && w.curVer == 1 && w.snaps == multiset{} && w.live == map[] && w.tabs == map[]
    && w.txs == map[] && w.gc == multiset{} && w.log == []
  }

  ghost predicate InUse<T, S>(w: World<T, S>, p: nat) {
    exists t, i :: t in w.tabs && 0 <= i < |w.tabs[t]| && w.tabs[t][i].ptr == p
  }

  /** The check of db_commit: every written table still has the base as its head. */
  ghost predicate CommitCheck<T, S>(w: World<T, S>, h: nat)
    requires h in w.txs
  {
    forall t :: t in w.txs[h] && w.txs[h][t].work.Some? ==>
      t in w.tabs && w.tabs[t] != [] && w.tabs[t][0].ptr == w.txs[h][t].base
  }

  ghost function Dirty<T, S>(tx: map<string, TxTab<T, S>>): set<string> {
    set t | t in tx && tx[t].work.Some?
  }

  /** Addresses for the committed copies: unused, and one each. */
  ghost predicate FreshPtrs<T, S>(w: World<T, S>, names: set<string>, ptrs: map<string, nat>) {
    && ptrs.Keys == names
    && (forall t :: t in names ==> !InUse(w, ptrs[t]))
    && (forall t, t' :: t in names && t' in names && t != t' ==> ptrs[t] != ptrs[t'])
  }

  /** The chains with the written copies as new heads. */
  ghost function Pushed<T, S>(tabs: map<string, Chain<T>>, tx: map<string, TxTab<T, S>>, ptrs: map<string, nat>, ver: nat): map<string, Chain<T>>
    requires Dirty(tx) <= ptrs.Keys
  {
    map t | t in tabs :: if t in Dirty(tx) then [Ver(ptrs[t], ver, tx[t].work.value)] + tabs[t] else tabs[t]
  }

  ghost predicate DoCommit<T, S>(w: World<T, S>, w': World<T, S>, h: nat, ptrs: map<string, nat>) {
    && h in w.txs && CommitCheck(w, h) && FreshPtrs(w, Dirty(w.txs[h]), ptrs)
    && var tx := w.txs[h];
    && var ver := w.curVer + 1;
    && w' == w.(curVer := ver,
                tabs := Pushed(w.tabs, tx, ptrs, ver),
                txs := w.txs - {h},
                log := w.log + [map t | t in Dirty(tx) :: tx[t].stmts])
  }

  /** A write on the private copy, made on first use from the base version.  If the
      base had been freed, the copy could be made from anything. */
  ghost predicate DoWrite<T, S>(exec: (T, S) -> T, w: World<T, S>, w': World<T, S>, h: nat, t: string, s: S, seen: T) {
    && h in w.txs && t in w.txs[h]
    && var it := w.txs[h][t];
    && (it.work.Some? ==> seen == it.work.value)
    && (it.work.None? && t in w.tabs ==>
          forall i :: 0 <= i < |w.tabs[t]| && w.tabs[t][i].ptr == it.base ==> seen == w.tabs[t][i].data)
    && w' == w.(txs := w.txs[h := w.txs[h][t := TxTab(it.base, Some(exec(seen, s)), it.stmts + [s])]])
  }

  ghost predicate DoView<T, S>(w: World<T, S>, w': World<T, S>, h: nat, t: string) {
    && h in w.txs && h in w.live && t in w.tabs && t !in w.txs[h]
    && var i := VisIdx(w.tabs[t], w.live[h]);
    && i < |w.tabs[t]|
    && w' == w.(txs := w.txs[h := w.txs[h][t := TxTab(w.tabs[t][i].ptr, None, [])]])
  }

  ghost predicate IsMin(k: nat, m: multiset<nat>) {
    k in m && forall s :: s in m ==> k <= s
  }

  /** keep_id of gc_tabs: the oldest live snapshot, 0 when there is none. */
  ghost predicate KeepId(m: multiset<nat>, k: nat) {
    if m == multiset{} then k == 0 else IsMin(k, m)
  }

  ghost predicate NextAny<T, S>(exec: (T, S) -> T, w: World<T, S>, w': World<T, S>, step: Step<T, S>) {
    match step
    case Begin(h) => h !in w.live && w' == w.(snaps := w.snaps + multiset{w.curVer}, live := w.live[h := w.curVer], txs := w.txs[h := map[]])
    case Snap(h) => h !in w.live && w' == w.(snaps := w.snaps + multiset{w.curVer}, live := w.live[h := w.curVer])
    case Load(t, p) => t !in w.tabs && t in w.disk && !InUse(w, p) && w' == w.(tabs := w.tabs[t := [Ver(p, 1, w.disk[t])]])
    case View(h, t) => DoView(w, w', h, t)
    case Write(h, t, s, seen) => DoWrite(exec, w, w', h, t, s, seen)
    case Commit(h, ptrs) => DoCommit(w, w', h, ptrs)
    case Abort(h) => h in w.txs && w' == w.(txs := w.txs - {h})
    case Release(h) => h in w.live && h !in w.txs && w' == w.(snaps := w.snaps - multiset{w.live[h]}, live := w.live - {h})
    case Stat => exists k :: KeepId(w.snaps, k) && w' == w.(gc := w.gc + multiset{k})
    case PruneAll(k) => k in w.gc && w' == w.(gc := w.gc - multiset{k}, tabs := map t | t in w.tabs :: Prune(w.tabs[t], k))
  }

  /** What a prune has to find: with a positive keep id nothing, with keep id 0 that
      no live snapshot still looks below a head. */
  ghost predicate PruneGuard<T, S>(w: World<T, S>, k: nat) {
    k == 0 ==> forall t, h :: t in w.tabs && h in w.live && w.tabs[t] != [] ==> w.tabs[t][0].id <= w.live[h] || |w.tabs[t]| == 1
  }

  ghost predicate Next<T, S>(exec: (T, S) -> T, w: World<T, S>, w': World<T, S>, step: Step<T, S>) {
    NextAny(exec, w, w', step) && (step.PruneAll? ==> PruneGuard(w, step.keep))
  }

  // -------------------------------------------------------------- invariant

  /** The handles that hold snapshot id s. */
  ghost function Holders(live: map<nat, nat>, s: nat): set<nat> {
    set h | h in live && live[h] == s
  }

  /** The snapshot list holds each id once per handle on it. */
  ghost predicate Counted(live: map<nat, nat>, snaps: multiset<nat>) {
    forall s :: snaps[s] == |Holders(live, s)|
  }

  /** Version v wrote table t. */
  ghost predicate Wrote<T, S>(w: World<T, S>, t: string, v: nat) {
    2 <= v <= |w.log| + 1 && t in w.log[v - 2]
  }

  ghost predicate SeesSerial<T, S>(exec: (T, S) -> T, w: World<T, S>, t: string, c: Chain<T>, v: nat)
    requires t in w.disk
  {
    1 <= v <= |w.log| + 1 && VisIdx(c, v) < |c| && c[VisIdx(c, v)].data == At(exec, w, t, v)
  }

  ghost predicate ChainInv<T, S>(exec: (T, S) -> T, w: World<T, S>, t: string)
    requires t in w.tabs
  {
    var c := w.tabs[t];
    && t in w.disk && c != [] && Descending(c)
    && 1 <= Oldest(c) && c[0].id <= w.curVer
    // every version still visible is the serial state of its moment
    && (forall v :: Oldest(c) <= v <= w.curVer ==> SeesSerial(exec, w, t, c, v))
    // the head is the last version that wrote the table
    && (c[0].id > 1 ==> Wrote(w, t, c[0].id))
    && (forall v :: c[0].id < v ==> !Wrote(w, t, v))
    // no live snapshot has lost its version
    && (forall h :: h in w.live ==> Oldest(c) <= w.live[h])
  }

  ghost predicate TxInv<T, S>(exec: (T, S) -> T, w: World<T, S>, h: nat, t: string)
    requires h in w.txs && t in w.txs[h] && h in w.live
  {
    var it := w.txs[h][t];
    && t in w.tabs
    && var i := VisIdx(w.tabs[t], w.live[h]);
    && i < |w.tabs[t]|
    && w.tabs[t][i].ptr == it.base
    && (it.work.None? ==> it.stmts == [])
    && (it.work.Some? ==> it.work.value == Replay(exec, w.tabs[t][i].data, it.stmts))
  }

  ghost predicate Unique<T, S>(w: World<T, S>) {
    forall t, t', i, j ::
      (t in w.tabs && t' in w.tabs && 0 <= i < |w.tabs[t]| && 0 <= j < |w.tabs[t']| && w.tabs[t][i].ptr == w.tabs[t'][j].ptr)
      ==> t == t' && i == j
  }

  ghost predicate Meta<T, S>(w: World<T, S>) {
    && w.curVer >= 1 && |w.log| == w.curVer - 1
    && Counted(w.live, w.snaps)
    && (forall h :: h in w.live ==> 1 <= w.live[h] <= w.curVer)
    && (forall k :: k in w.gc ==> k <= w.curVer && forall h :: h in w.live ==> k <= w.live[h])
    && w.txs.Keys <= w.live.Keys
    && (forall i, t :: 0 <= i < |w.log| && t in w.log[i] ==> t in w.tabs)
  }

  ghost predicate Chains<T, S>(exec: (T, S) -> T, w: World<T, S>) {
    forall t :: t in w.tabs ==> ChainInv(exec, w, t)
  }

  ghost predicate TxsOk<T, S>(exec: (T, S) -> T, w: World<T, S>) {
    forall h, t :: h in w.txs && h in w.live && t in w.txs[h] ==> TxInv(exec, w, h, t)
  }

  ghost predicate Inv<T, S>(exec: (T, S) -> T, w: World<T, S>) {
    Meta(w) && Unique(w) && Chains(exec, w) && TxsOk(exec, w)
  }

  // ------------------------------------------------------- facts about chains

  lemma {:induction false} VisIdxUnique<T>(c: Chain<T>, snap: nat, i: nat)
    requires i < |c| && c[i].id <= snap && forall j :: 0 <= j < i ==> c[j].id > snap
    ensures VisIdx(c, snap) == i
  {
    if i > 0 {
      assert c[0].id > snap;
      VisIdxUnique(c[1..], snap, i - 1);
    }
  }

  /** An older snapshot looks further down. */
  lemma {:induction false} VisIdxMono<T>(c: Chain<T>, a: nat, b: nat)
    requires a <= b
    ensures VisIdx(c, a) >= VisIdx(c, b)
  {
    if c != [] && c[0].id > b {
      VisIdxMono(c[1..], a, b);
    }
  }

  /** A newer version on top changes nothing for older snapshots. */
  lemma VisIdxPush<T>(c: Chain<T>, v: Ver<T>, snap: nat)
    requires v.id > snap
    ensures VisIdx([v] + c, snap) == 1 + VisIdx(c, snap)
  {
    assert ([v] + c)[1..] == c;
  }

  /** Pruning with a keep id not above the snapshot changes nothing for it. */
  lemma VisIdxPrune<T>(c: Chain<T>, keep: nat, snap: nat)
    requires Descending(c) && c != [] && Oldest(c) <= snap
    requires if keep == 0 then c[0].id <= snap || |c| == 1 else keep <= snap
    ensures VisIdx(Prune(c, keep), snap) == VisIdx(c, snap) < |Prune(c, keep)|
  {
    var i := VisIdx(c, snap);
    assert c[|c| - 1].id <= snap;
    var r := Prune(c, keep);
    if keep > 0 {
      VisIdxMono(c, keep, snap);
    }
    assert i < |r|;
    VisIdxUnique(r, snap, i);
  }

  // -------------------------------------------------- facts about snapshot sets

  lemma CountedAdd(live: map<nat, nat>, snaps: multiset<nat>, h: nat, id: nat)
    requires Counted(live, snaps) && h !in live
    ensures Counted(live[h := id], snaps + multiset{id})
  {
    forall s ensures (snaps + multiset{id})[s] == |Holders(live[h := id], s)| {
      assert Holders(live[h := id], s) == if s == id then Holders(live, s) + {h} else Holders(live, s);
    }
  }

  lemma CountedRemove(live: map<nat, nat>, snaps: multiset<nat>, h: nat)
    requires Counted(live, snaps) && h in live
    ensures Counted(live - {h}, snaps - multiset{live[h]})
  {
    CountedMember(live, snaps, h);
    forall s ensures (snaps - multiset{live[h]})[s] == |Holders(live - {h}, s)| {
      assert Holders(live - {h}, s) == Holders(live, s) - {h};
    }
  }

  /** Every open handle's snapshot is in the list. */
  lemma CountedMember(live: map<nat, nat>, snaps: multiset<nat>, h: nat)
    requires Counted(live, snaps) && h in live
    ensures live[h] in snaps
  {
    assert h in Holders(live, live[h]);
  }

  // ------------------------------------------------------------ serial histories

  lemma SerialPush<T, S>(exec: (T, S) -> T, d: T, log: seq<Writes<S>>, w: Writes<S>, t: string)
    ensures Serial(exec, d, log + [w], t) ==
            if t in w then Replay(exec, Serial(exec, d, log, t), w[t]) else Serial(exec, d, log, t)
  {
    assert (log + [w])[..|log|] == log;
  }

  /** Versions that did not write a table do not change it. */
  lemma {:induction false} AtUnwritten<T, S>(exec: (T, S) -> T, w: World<T, S>, t: string, u: nat, v: nat)
    requires t in w.disk && 1 <= u <= v <= |w.log| + 1
    requires forall x :: u < x <= v ==> !Wrote(w, t, x)
    ensures At(exec, w, t, u) == At(exec, w, t, v)
    decreases v - u
  {
    if u < v {
      AtUnwritten(exec, w, t, u, v - 1);
      assert w.log[..v - 1][..v - 2] == w.log[..v - 2];
      assert !Wrote(w, t, v);
    }
  }
}
