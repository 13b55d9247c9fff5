/** The critical sections of src/db/mvcc.c and src/db/dbapi.c as they run: loops over
    the snapshot list, the table array and the version chains.  Each method is proved
    to do what the corresponding step of Versions says. */
module Db {
  import opened Basics
  import opened Versions

  /** The list without the first occurrence of s. */
  function RemoveFirst(l: seq<nat>, s: nat): seq<nat> {
    if l == [] then [] else if l[0] == s then l[1..] else [l[0]] + RemoveFirst(l[1..], s)
  }

  lemma {:induction false} RemoveFirstAt(l: seq<nat>, s: nat, i: nat)
    requires i < |l| && l[i] == s && s !in l[..i]
    ensures RemoveFirst(l, s) == l[..i] + l[i + 1..]
  {
    if i > 0 {
      assert l[0] in l[..i];
      assert forall x :: x in l[1..][..i - 1] ==> x in l[..i];
      RemoveFirstAt(l[1..], s, i - 1);
      assert l[1..][..i - 1] == l[1..i] && l[1..][i..] == l[i + 1..];
      assert [l[0]] + l[1..i] == l[..i];
    }
  }

  lemma {:induction false} RemoveFirstAbsent(l: seq<nat>, s: nat)
    requires s !in l
    ensures RemoveFirst(l, s) == l
  {
    if l != [] {
      RemoveFirstAbsent(l[1..], s);
    }
  }

  /** Releasing a snapshot takes exactly one occurrence of its id off the multiset. */
  lemma {:induction false} RemoveFirstMultiset(l: seq<nat>, s: nat)
    ensures multiset(RemoveFirst(l, s)) == multiset(l) - multiset{s}
  {
    if l != [] {
      assert l == [l[0]] + l[1..];
      if l[0] != s {
        RemoveFirstMultiset(l[1..], s);
      }
    }
  }

  /** struct Mvcc. */
  class Mvcc {
    var curVer: nat
    var snaps: seq<nat>

    constructor ()
      ensures curVer == 1 && snaps == []
    {
      curVer, snaps := 1, [];
    }

    /** mv_snap. */
    method Snap() returns (s: nat)
      modifies this
      ensures s == curVer == old(curVer) && snaps == old(snaps) + [s]
    {
      s := curVer;
      snaps := snaps + [s];
    }

    /** mv_bump. */
    method Bump() returns (ver: nat)
      modifies this`curVer
      ensures ver == curVer == old(curVer) + 1
    {
      curVer := curVer + 1;
      ver := curVer;
    }

    /** mv_gc: the first entry with the given id leaves the list. */
    method Gc(snap: nat)
      modifies this`snaps
      ensures snaps == if snap == 0 then old(snaps) else RemoveFirst(old(snaps), snap)
      ensures snap != 0 ==> multiset(snaps) == multiset(old(snaps)) - multiset{snap}
    {
      if snap == 0 {
        return;
      }
      RemoveFirstMultiset(snaps, snap);
      var i := 0;
      while i < |snaps|
        invariant 0 <= i <= |snaps| && snaps == old(snaps) && snap !in snaps[..i]
      {
        if snaps[i] == snap {
          RemoveFirstAt(snaps, snap, i);
          snaps := snaps[..i] + snaps[i + 1..];
          return;
        }
        i := i + 1;
      }
      RemoveFirstAbsent(snaps, snap);
    }

    /** mv_stat and snap_min: how many snapshots are live, and the oldest of them. */
    method Stat() returns (live: nat, oldest: nat)
      ensures live == |snaps|
      ensures live == 0 ==> oldest == curVer
      ensures live > 0 ==> IsMin(oldest, multiset(snaps))
    {
      live, oldest := |snaps|, curVer;
      if |snaps| == 0 {
        return;
      }
      oldest := snaps[0];
      var i := 1;
      while i < |snaps|
        invariant 1 <= i <= |snaps|
        invariant oldest in snaps && forall j :: 0 <= j < i ==> oldest <= snaps[j]
      {
        if snaps[i] < oldest { oldest := snaps[i]; }
        i := i + 1;
      }
    }
  }

  datatype TabEnt<T> = TabEnt(name: string, chain: Chain<T>)

  /** A table as an open transaction holds it. */
  datatype Item<+T> = Item(name: string, base: nat, work: Option<T>)

  predicate DistinctNames<T>(ents: seq<TabEnt<T>>) {
    forall i, j :: 0 <= i < j < |ents| ==> ents[i].name != ents[j].name
  }

  predicate DistinctItems<T>(items: seq<Item<T>>) {
    forall i, j :: 0 <= i < j < |items| ==> items[i].name != items[j].name
  }

  /** Whether the check of db_commit passes for the first n items. */
  ghost predicate Unchanged<T>(ents: seq<TabEnt<T>>, items: seq<Item<T>>, n: nat)
    requires n <= |items|
  {
    forall j :: 0 <= j < n && items[j].work.Some? ==>
      exists e :: 0 <= e < |ents| && ents[e].name == items[j].name && ents[e].chain != [] && ents[e].chain[0].ptr == items[j].base
  }

  /** Entry e after the first n items were installed as version ver, item j at address
      first + j. */
  ghost predicate Installed<T>(before: TabEnt<T>, after: TabEnt<T>, items: seq<Item<T>>, n: nat, ver: nat, first: nat)
    requires n <= |items|
  {
    && after.name == before.name
    && (forall j :: 0 <= j < n && items[j].name == before.name && items[j].work.Some? ==>
          after.chain == [Ver(first + j, ver, items[j].work.value)] + before.chain)
    && ((forall j :: 0 <= j < n && items[j].work.Some? ==> items[j].name != before.name) ==> after.chain == before.chain)
  }

  ghost predicate AllInstalled<T>(before: seq<TabEnt<T>>, after: seq<TabEnt<T>>, items: seq<Item<T>>, n: nat, ver: nat, first: nat)
    requires n <= |items|
  {
    |after| == |before| && forall e :: 0 <= e < |before| ==> Installed(before[e], after[e], items, n, ver, first)
  }

  ghost predicate PtrsBelow<T>(ents: seq<TabEnt<T>>, alloc: nat) {
    forall e, i :: 0 <= e < |ents| && 0 <= i < |ents[e].chain| ==> ents[e].chain[i].ptr < alloc
  }

  // ------------------------------------------- the records behind a Versions world

  /** The table array holds exactly the chains of tabs. */
  ghost predicate Represents<T>(ents: seq<TabEnt<T>>, tabs: map<string, Chain<T>>) {
    && DistinctNames(ents)
    && (forall e :: 0 <= e < |ents| ==> ents[e].name in tabs && tabs[ents[e].name] == ents[e].chain)
    && (forall t :: t in tabs ==> exists e :: 0 <= e < |ents| && ents[e].name == t)
  }

  /** The transaction's table list holds exactly the tables of tx. */
  ghost predicate Holds<T, S>(items: seq<Item<T>>, tx: map<string, TxTab<T, S>>) {
    && DistinctItems(items)
    && (forall j :: 0 <= j < |items| ==>
          items[j].name in tx && tx[items[j].name].base == items[j].base && tx[items[j].name].work == items[j].work)
    && (forall t :: t in tx ==> exists j :: 0 <= j < |items| && items[j].name == t)
  }

  lemma CheckRefines<T, S>(w: World<T, S>, h: nat, ents: seq<TabEnt<T>>, items: seq<Item<T>>)
    requires h in w.txs && Represents(ents, w.tabs) && Holds(items, w.txs[h])
    ensures Unchanged(ents, items, |items|) <==> CommitCheck(w, h)
  {
    if CommitCheck(w, h) {
      forall j | 0 <= j < |items| && items[j].work.Some?
        ensures exists e :: 0 <= e < |ents| && ents[e].name == items[j].name && ents[e].chain != [] && ents[e].chain[0].ptr == items[j].base
      {
        assert items[j].name in w.tabs;
      }
    }
    if Unchanged(ents, items, |items|) {
      forall t | t in w.txs[h] && w.txs[h][t].work.Some?
        ensures t in w.tabs && w.tabs[t] != [] && w.tabs[t][0].ptr == w.txs[h][t].base
      {
        var j :| 0 <= j < |items| && items[j].name == t;
      }
    }
  }

  ghost function ItemOf<T>(items: seq<Item<T>>, t: string): (j: nat)
    requires exists j :: 0 <= j < |items| && items[j].name == t
    ensures j < |items| && items[j].name == t
  {
    var j :| 0 <= j < |items| && items[j].name == t;
    j
  }

  ghost function NewPtrs<T, S>(items: seq<Item<T>>, tx: map<string, TxTab<T, S>>, alloc: nat): map<string, nat>
    requires Holds(items, tx)
  {
    map t | t in Dirty(tx) :: alloc + ItemOf(items, t)
  }

  lemma NewPtrsFresh<T, S>(w: World<T, S>, tx: map<string, TxTab<T, S>>, ents: seq<TabEnt<T>>, items: seq<Item<T>>, alloc: nat)
    requires Represents(ents, w.tabs) && Holds(items, tx) && PtrsBelow(ents, alloc)
    ensures FreshPtrs(w, Dirty(tx), NewPtrs(items, tx, alloc)) == true
  {
    var ptrs := NewPtrs(items, tx, alloc);
    forall t | t in Dirty(tx) ensures !InUse(w, ptrs[t]) {
      forall u, i | u in w.tabs && 0 <= i < |w.tabs[u]| ensures w.tabs[u][i].ptr != ptrs[t] {
        var e :| 0 <= e < |ents| && ents[e].name == u;
      }
    }
  }

  lemma TabsRefine<T, S>(w: World<T, S>, tx: map<string, TxTab<T, S>>, ents: seq<TabEnt<T>>, ents': seq<TabEnt<T>>, items: seq<Item<T>>, alloc: nat)
    requires Represents(ents, w.tabs) && Holds(items, tx) && AllInstalled(ents, ents', items, |items|, w.curVer + 1, alloc)
    ensures Represents(ents', Pushed(w.tabs, tx, NewPtrs(items, tx, alloc), w.curVer + 1)) == true
  {
    var tabs' := Pushed(w.tabs, tx, NewPtrs(items, tx, alloc), w.curVer + 1);
    SameNames(ents, ents', w.tabs);
    forall e | 0 <= e < |ents'| ensures ents'[e].name in tabs' && tabs'[ents'[e].name] == ents'[e].chain {
      EntRefines(w.tabs, tx, ents[e], ents'[e], items, w.curVer + 1, alloc);
    }
  }

  lemma SameNames<T>(ents: seq<TabEnt<T>>, ents': seq<TabEnt<T>>, tabs: map<string, Chain<T>>)
    requires Represents(ents, tabs) && |ents'| == |ents| && forall e :: 0 <= e < |ents| ==> ents'[e].name == ents[e].name
    ensures DistinctNames(ents') && forall t :: t in tabs ==> exists e :: 0 <= e < |ents'| && ents'[e].name == t
  {
    forall t | t in tabs ensures exists e :: 0 <= e < |ents'| && ents'[e].name == t {
      var e :| 0 <= e < |ents| && ents[e].name == t;
      assert ents'[e].name == t;
    }
  }

  /** The loops of db_commit carry out the commit step, at fresh addresses. */
  lemma CommitRefines<T, S>(w: World<T, S>, h: nat, ents: seq<TabEnt<T>>, ents': seq<TabEnt<T>>, items: seq<Item<T>>, alloc: nat)
    returns (w': World<T, S>, ptrs: map<string, nat>)
    requires h in w.txs && Represents(ents, w.tabs) == true && Holds(items, w.txs[h]) == true && PtrsBelow(ents, alloc) == true && CommitCheck(w, h) == true
    requires AllInstalled(ents, ents', items, |items|, w.curVer + 1, alloc) == true
    ensures DoCommit(w, w', h, ptrs) == true && Represents(ents', w'.tabs) == true
  {
    var tx := w.txs[h];
    ptrs := NewPtrs(items, tx, alloc);
    var ver := w.curVer + 1;
    w' := w.(curVer := ver,
             tabs := Pushed(w.tabs, tx, ptrs, ver),
             txs := w.txs - {h},
             log := w.log + [map t | t in Dirty(tx) :: tx[t].stmts]);
    NewPtrsFresh(w, tx, ents, items, alloc);
    TabsRefine(w, tx, ents, ents', items, alloc);
  }

  lemma EntRefines<T, S>(tabs: map<string, Chain<T>>, tx: map<string, TxTab<T, S>>, before: TabEnt<T>, after: TabEnt<T>, items: seq<Item<T>>, ver: nat, alloc: nat)
    requires Holds(items, tx) && before.name in tabs && tabs[before.name] == before.chain && Installed(before, after, items, |items|, ver, alloc)
    ensures after.name == before.name && Pushed(tabs, tx, NewPtrs(items, tx, alloc), ver)[after.name] == after.chain
  {
    if after.name in Dirty(tx) {
      var j := ItemOf(items, after.name);
      assert items[j].work.Some?;
    } else {
      assert forall j :: 0 <= j < |items| && items[j].work.Some? ==> items[j].name in Dirty(tx);
    }
  }

  /** struct Db: the table array and the addresses handed out so far. */
  class Database<T> {
    const mv: Mvcc
    var ents: seq<TabEnt<T>>
    var alloc: nat

    ghost predicate Valid()
      reads this
    {
      DistinctNames(ents) && PtrsBelow(ents, alloc)
    }

    constructor ()
      ensures Valid() && ents == [] && fresh(mv) && mv.curVer == 1 && mv.snaps == []
    {
      mv := new Mvcc();
      ents, alloc := [], 1;
    }

    /** get_ent. */
    method GetEnt(name: string) returns (e: int)
      ensures -1 <= e < |ents|
      ensures e >= 0 ==> ents[e].name == name
      ensures e == -1 ==> forall j :: 0 <= j < |ents| ==> ents[j].name != name
    {
      e := 0;
      while e < |ents|
        invariant 0 <= e <= |ents| && forall j :: 0 <= j < e ==> ents[j].name != name
      {
        if ents[e].name == name { return; }
        e := e + 1;
      }
      e := -1;
    }

    /** tab_vis. */
    method TabVis(e: nat, snap: nat) returns (i: nat)
      requires e < |ents|
      ensures i == VisIdx(ents[e].chain, snap)
    {
      i := 0;
      var c := ents[e].chain;
      while i < |c| && c[i].id > snap
        invariant 0 <= i <= |c| && VisIdx(c, snap) == i + VisIdx(c[i..], snap)
      {
        assert c[i..][1..] == c[i + 1..];
        i := i + 1;
      }
    }

    /** prune_tab. */
    method PruneTab(e: nat, keep: nat)
      requires Valid() && e < |ents|
      modifies this`ents
      ensures ents == old(ents)[e := TabEnt(old(ents)[e].name, Prune(old(ents)[e].chain, keep))]
      ensures Valid()
    {
      var c := ents[e].chain;
      if c == [] {
        return;
      }
      var k := 0;
      if keep != 0 {
        k := TabVis(e, keep);
        if k == |c| {
          return;
        }
      }
      ents := ents[e := TabEnt(ents[e].name, c[..k + 1])];
    }

    /** gc_tabs: every table pruned with the one keep id that mv_stat yields. */
    method GcTabs() returns (ghost keep: nat)
      requires Valid()
      modifies this`ents
      ensures Valid() && KeepId(multiset(mv.snaps), keep)
      ensures |ents| == |old(ents)|
      ensures forall e :: 0 <= e < |ents| ==> ents[e] == TabEnt(old(ents)[e].name, Prune(old(ents)[e].chain, keep))
    {
      var live, oldest := mv.Stat();
      var keepId := if live > 0 then oldest else 0;
      keep := keepId;
      assert live == 0 ==> mv.snaps == [];
      assert live > 0 ==> mv.snaps[0] in multiset(mv.snaps);
      var e := 0;
      while e < |ents|
        invariant 0 <= e <= |ents| == |old(ents)| && Valid()
        invariant forall j :: 0 <= j < e ==> ents[j] == TabEnt(old(ents)[j].name, Prune(old(ents)[j].chain, keep))
        invariant forall j :: e <= j < |ents| ==> ents[j] == old(ents)[j]
      {
        PruneTab(e, keepId);
        e := e + 1;
      }
    }

    /** The check loop of db_commit. */
    method Check(items: seq<Item<T>>) returns (ok: bool)
      requires Valid()
      ensures ok <==> Unchanged(ents, items, |items|)
    {
      var i := 0;
      while i < |items|
        invariant 0 <= i <= |items| && Unchanged(ents, items, i)
      {
        if items[i].work.Some? {
          var e := GetEnt(items[i].name);
          if e < 0 || ents[e].chain == [] || ents[e].chain[0].ptr != items[i].base {
            return false;
          }
        }
        i := i + 1;
      }
      ok := true;
    }

    /** db_commit, saves succeeding: on an unchanged base every written table gets the
        private copy as its new head, all under one new version number. */
    method Commit(items: seq<Item<T>>) returns (ok: bool, ver: nat)
      requires Valid() && DistinctItems(items)
      modifies this, mv`curVer
      ensures Valid()
      ensures ok <==> old(Unchanged(ents, items, |items|))
      ensures !ok ==> ents == old(ents) && mv.curVer == old(mv.curVer)
      ensures ok ==> ver == mv.curVer == old(mv.curVer) + 1
      ensures ok ==> AllInstalled(old(ents), ents, items, |items|, ver, old(alloc)) == true
    {
      ver := 0;
      ok := Check(items);
      if !ok {
        return;
      }
      ver := mv.Bump();
      var i := 0;
      while i < |items|
        invariant 0 <= i <= |items| && Valid() == true && alloc == old(alloc) + i
        invariant mv.curVer == ver == old(mv.curVer) + 1
        invariant AllInstalled(old(ents), ents, items, i, ver, old(alloc)) == true
      {
        InstallItem(items, i, ver, old(ents), old(alloc));
        i := i + 1;
      }
    }

    method InstallItem(items: seq<Item<T>>, i: nat, ver: nat, ghost ents0: seq<TabEnt<T>>, ghost alloc0: nat)
      requires Valid() == true && DistinctItems(items) == true && i < |items| && alloc == alloc0 + i
      requires AllInstalled(ents0, ents, items, i, ver, alloc0) == true
      modifies this
      ensures Valid() == true && alloc == alloc0 + i + 1
      ensures AllInstalled(ents0, ents, items, i + 1, ver, alloc0) == true
    {
      if items[i].work.Some? {
        var e := GetEnt(items[i].name);
        if e >= 0 {
          assert Installed(ents0[e], ents[e], items, i, ver, alloc0);
          ents := ents[e := TabEnt(ents[e].name, [Ver(alloc, ver, items[i].work.value)] + ents[e].chain)];
        }
      }
      alloc := alloc + 1;
    }
  }
}
