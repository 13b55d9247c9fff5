/** Whole runs of the version system: what every step keeps, and what follows for
    all interleavings of transactions, readers and garbage collection. */
module VersionRuns {
  import opened Basics
  import opened Versions

  /** The serial state of a moment is still the same later. */
  lemma AtSame<T, S>(exec: (T, S) -> T, w: World<T, S>, w': World<T, S>, t: string, v: nat)
    requires t in w.disk && 1 <= v <= |w.log| + 1 <= |w'.log| + 1 && w'.disk == w.disk && w.log == w'.log[..|w.log|]
    ensures At(exec, w', t, v) == At(exec, w, t, v)
  {
    assert w'.log[..v - 1] == w.log[..v - 1];
  }

  /** A handle stays open until it is released. */
  lemma StepLive<T, S>(exec: (T, S) -> T, w: World<T, S>, w': World<T, S>, step: Step<T, S>, h: nat)
    requires Next(exec, w, w', step) && h in w.live && (step.Release? ==> step.h != h)
    ensures h in w'.live
  {
  }

  /** A table that a step leaves alone. */
  lemma ChainInvSame<T, S>(exec: (T, S) -> T, w: World<T, S>, w': World<T, S>, t: string)
    requires t in w.tabs && ChainInv(exec, w, t)
    requires w'.curVer == w.curVer && w'.log == w.log && w'.disk == w.disk && t in w'.tabs && w'.tabs[t] == w.tabs[t]
    requires forall h :: h in w'.live ==> Oldest(w.tabs[t]) <= w'.live[h]
    ensures ChainInv(exec, w', t)
  {
    var c := w.tabs[t];
    forall v | Oldest(c) <= v <= w'.curVer ensures SeesSerial(exec, w', t, c, v) {
      assert SeesSerial(exec, w, t, c, v);
    }
    forall v | c[0].id < v ensures !Wrote(w', t, v) {
      assert !Wrote(w, t, v);
    }
    assert c[0].id > 1 ==> Wrote(w, t, c[0].id);
  }

  /** Steps that touch neither tables nor history. */
  ghost predicate Quiet<T, S>(w: World<T, S>, w': World<T, S>) {
    w'.curVer == w.curVer && w'.log == w.log && w'.disk == w.disk && w'.tabs == w.tabs
  }

  lemma QuietChains<T, S>(exec: (T, S) -> T, w: World<T, S>, w': World<T, S>)
    requires Chains(exec, w) && Quiet(w, w')
    requires forall h :: h in w'.live ==> w'.live[h] == w.curVer || (h in w.live && w'.live[h] == w.live[h])
    ensures Chains(exec, w')
  {
    forall t | t in w'.tabs ensures ChainInv(exec, w', t) {
      assert ChainInv(exec, w, t);
      var c := w.tabs[t];
      assert Oldest(c) <= c[0].id;
      ChainInvSame(exec, w, w', t);
    }
  }

  lemma OpenInv<T, S>(exec: (T, S) -> T, w: World<T, S>, w': World<T, S>, h: nat)
    requires Inv(exec, w) && (NextAny(exec, w, w', Begin(h)) || NextAny(exec, w, w', Snap(h)))
    ensures Inv(exec, w')
  {
    CountedAdd(w.live, w.snaps, h, w.curVer);
    QuietChains(exec, w, w');
    forall g, t | g in w'.txs && g in w'.live && t in w'.txs[g] ensures TxInv(exec, w', g, t) {
      assert g in w.txs && g in w.live && t in w.txs[g] && TxInv(exec, w, g, t);
    }
  }

  lemma LoadInv<T, S>(exec: (T, S) -> T, w: World<T, S>, w': World<T, S>, t: string, p: nat)
    requires Inv(exec, w) && NextAny(exec, w, w', Load(t, p))
    ensures Inv(exec, w')
  {
    forall u | u in w'.tabs ensures ChainInv(exec, w', u) {
      if u == t {
        LoadedChain(exec, w, w', t, p);
      } else {
        assert ChainInv(exec, w, u);
        ChainInvSame(exec, w, w', u);
      }
    }
    forall g, u | g in w'.txs && g in w'.live && u in w'.txs[g] ensures TxInv(exec, w', g, u) {
      assert TxInv(exec, w, g, u);
    }
    LoadUnique(w, w', t, p);
  }

  lemma LoadUnique<T, S>(w: World<T, S>, w': World<T, S>, t: string, p: nat)
    requires Unique(w) && t !in w.tabs && t in w.disk && !InUse(w, p) && w' == w.(tabs := w.tabs[t := [Ver(p, 1, w.disk[t])]])
    ensures Unique(w')
  {
    forall u, u', i, j | u in w'.tabs && u' in w'.tabs && 0 <= i < |w'.tabs[u]| && 0 <= j < |w'.tabs[u']| && w'.tabs[u][i].ptr == w'.tabs[u'][j].ptr
      ensures u == u' && i == j
    {
      assert u != t ==> InUse(w, w'.tabs[u][i].ptr);
      assert u' != t ==> InUse(w, w'.tabs[u'][j].ptr);
    }
  }

  lemma LoadedChain<T, S>(exec: (T, S) -> T, w: World<T, S>, w': World<T, S>, t: string, p: nat)
    requires Meta(w) && NextAny(exec, w, w', Load(t, p))
    ensures ChainInv(exec, w', t)
  {
    var c := w'.tabs[t];
    forall v: nat ensures !Wrote(w', t, v) {
      assert 2 <= v <= |w.log| + 1 && t in w.log[v - 2] ==> t in w.tabs;
    }
    forall v | 1 <= v <= w'.curVer ensures SeesSerial(exec, w', t, c, v) {
      AtUnwritten(exec, w', t, 1, v);
      assert w'.log[..0] == [];
    }
  }

  lemma ViewInv<T, S>(exec: (T, S) -> T, w: World<T, S>, w': World<T, S>, h: nat, t: string)
    requires Inv(exec, w) && DoView(w, w', h, t)
    ensures Inv(exec, w')
  {
    QuietChains(exec, w, w');
    ViewTxs(exec, w, w', h, t);
  }

  lemma ViewTxs<T, S>(exec: (T, S) -> T, w: World<T, S>, w': World<T, S>, h: nat, t: string)
    requires TxsOk(exec, w) && DoView(w, w', h, t)
    ensures TxsOk(exec, w')
  {
    forall g, u | g in w'.txs && g in w'.live && u in w'.txs[g] ensures TxInv(exec, w', g, u) {
      if g != h || u != t { assert g in w.txs && u in w.txs[g] && TxInv(exec, w, g, u); }
    }
  }

  lemma ReplayPush<T, S>(exec: (T, S) -> T, d: T, stmts: seq<S>, s: S)
    ensures Replay(exec, d, stmts + [s]) == exec(Replay(exec, d, stmts), s)
  {
    assert (stmts + [s])[..|stmts|] == stmts;
  }

  lemma WriteInv<T, S>(exec: (T, S) -> T, w: World<T, S>, w': World<T, S>, h: nat, t: string, s: S, seen: T)
    requires Inv(exec, w) == true && DoWrite(exec, w, w', h, t, s, seen) == true
    ensures Inv(exec, w') == true
  {
    WriteFrame(exec, w, w', h, t, s, seen);
    QuietChains(exec, w, w');
    WriteTxs(exec, w, w', h, t, s, seen);
  }

  /** A write touches only the transaction's own table list. */
  lemma WriteFrame<T, S>(exec: (T, S) -> T, w: World<T, S>, w': World<T, S>, h: nat, t: string, s: S, seen: T)
    requires Meta(w) && Unique(w) && DoWrite(exec, w, w', h, t, s, seen)
    ensures w' == w.(txs := w'.txs) && Meta(w') == true && Unique(w') == true
  {
  }

  lemma WriteTxs<T, S>(exec: (T, S) -> T, w: World<T, S>, w': World<T, S>, h: nat, t: string, s: S, seen: T)
    requires TxsOk(exec, w) && w.txs.Keys <= w.live.Keys && DoWrite(exec, w, w', h, t, s, seen)
    ensures TxsOk(exec, w') == true
  {
    forall g, u | g in w'.txs && g in w'.live && u in w'.txs[g] ensures TxInv(exec, w', g, u) {
      assert g in w.txs && u in w.txs[g] && TxInv(exec, w, g, u);
      if g == h && u == t {
        WrittenTx(exec, w, w', h, t, s, seen);
      }
    }
  }

  lemma WrittenTx<T, S>(exec: (T, S) -> T, w: World<T, S>, w': World<T, S>, h: nat, t: string, s: S, seen: T)
    requires h in w.txs && t in w.txs[h] && h in w.live && TxInv(exec, w, h, t) && DoWrite(exec, w, w', h, t, s, seen)
    ensures TxInv(exec, w', h, t)
  {
    var i := VisIdx(w.tabs[t], w.live[h]);
    ReplayPush(exec, w.tabs[t][i].data, w.txs[h][t].stmts, s);
    assert seen == Replay(exec, w.tabs[t][i].data, w.txs[h][t].stmts);
  }

  lemma CloseInv<T, S>(exec: (T, S) -> T, w: World<T, S>, w': World<T, S>, h: nat)
    requires Inv(exec, w) && (NextAny(exec, w, w', Abort(h)) || NextAny(exec, w, w', Release(h)))
    ensures Inv(exec, w')
  {
    if h in w.live {
      CountedRemove(w.live, w.snaps, h);
    }
    QuietChains(exec, w, w');
    forall g, u | g in w'.txs && g in w'.live && u in w'.txs[g] ensures TxInv(exec, w', g, u) {
      assert g in w.txs && u in w.txs[g] && TxInv(exec, w, g, u);
    }
  }

  /** The keep id that mv_stat yields is at most every live snapshot. */
  lemma KeepIdBelow<T, S>(w: World<T, S>, k: nat)
    requires Meta(w) && KeepId(w.snaps, k)
    ensures k <= w.curVer && forall h :: h in w.live ==> k <= w.live[h]
  {
    forall h | h in w.live ensures k <= w.live[h] {
      CountedMember(w.live, w.snaps, h);
    }
    if k in w.snaps {
      assert |Holders(w.live, k)| > 0;
      var h :| h in Holders(w.live, k);
    }
  }

  lemma StatInv<T, S>(exec: (T, S) -> T, w: World<T, S>, w': World<T, S>)
    requires Inv(exec, w) && NextAny(exec, w, w', Stat)
    ensures Inv(exec, w')
  {
    var k :| KeepId(w.snaps, k) && w' == w.(gc := w.gc + multiset{k});
    KeepIdBelow(w, k);
    QuietChains(exec, w, w');
    forall g, u | g in w'.txs && g in w'.live && u in w'.txs[g] ensures TxInv(exec, w', g, u) {
      assert TxInv(exec, w, g, u);
    }
  }

  // ----------------------------------------------------------------- pruning

  /** Pruning leaves every live snapshot its version, at its place and address. */
  lemma PrunedView<T, S>(exec: (T, S) -> T, w: World<T, S>, k: nat, t: string, h: nat)
    requires Meta(w) && t in w.tabs && ChainInv(exec, w, t) && h in w.live && k in w.gc && PruneGuard(w, k)
    ensures var c, c' := w.tabs[t], Prune(w.tabs[t], k);
            var i := VisIdx(c, w.live[h]);
            VisIdx(c', w.live[h]) == i < |c'| && c'[i] == c[i] && Oldest(c') <= w.live[h]
  {
    var c := w.tabs[t];
    var c' := Prune(c, k);
    VisIdxPrune(c, k, w.live[h]);
    assert Descending(c');
  }

  lemma PrunedSerial<T, S>(exec: (T, S) -> T, w: World<T, S>, k: nat, t: string, v: nat)
    requires t in w.tabs && ChainInv(exec, w, t)
    requires Oldest(Prune(w.tabs[t], k)) <= v <= w.curVer
    ensures SeesSerial(exec, w, t, Prune(w.tabs[t], k), v)
  {
    var c, c' := w.tabs[t], Prune(w.tabs[t], k);
    var i := VisIdx(c', v);
    assert SeesSerial(exec, w, t, c, v) by { assert Oldest(c) <= Oldest(c'); }
    VisIdxUnique(c, v, i);
  }

  lemma PrunedChain<T, S>(exec: (T, S) -> T, w: World<T, S>, w': World<T, S>, k: nat, t: string)
    requires Meta(w) && t in w.tabs && ChainInv(exec, w, t) && k in w.gc && PruneGuard(w, k)
    requires w'.curVer == w.curVer && w'.log == w.log && w'.disk == w.disk && w'.live == w.live
    requires t in w'.tabs && w'.tabs[t] == Prune(w.tabs[t], k)
    ensures ChainInv(exec, w', t)
  {
    var c, c' := w.tabs[t], Prune(w.tabs[t], k);
    forall h | h in w'.live ensures Oldest(c') <= w'.live[h] {
      PrunedView(exec, w, k, t, h);
    }
    forall v | Oldest(c') <= v <= w'.curVer ensures SeesSerial(exec, w', t, c', v) {
      PrunedSerial(exec, w, k, t, v);
      assert At(exec, w', t, v) == At(exec, w, t, v);
    }
    forall v: nat | c'[0].id < v ensures !Wrote(w', t, v) {
      assert !Wrote(w, t, v);
    }
    assert c[0].id > 1 ==> Wrote(w, t, c[0].id);
    assert Descending(c');
  }

  lemma PrunedTx<T, S>(exec: (T, S) -> T, w: World<T, S>, w': World<T, S>, k: nat, g: nat, u: string)
    requires Meta(w) && Chains(exec, w) && k in w.gc && PruneGuard(w, k) && g in w.txs && g in w.live && u in w.txs[g]
    requires w'.live == w.live && w'.txs == w.txs && TxInv(exec, w, g, u) && u in w'.tabs && w'.tabs[u] == Prune(w.tabs[u], k)
    ensures TxInv(exec, w', g, u)
  {
    assert ChainInv(exec, w, u);
    PrunedView(exec, w, k, u, g);
  }

  lemma PruneInv<T, S>(exec: (T, S) -> T, w: World<T, S>, w': World<T, S>, k: nat)
    requires Inv(exec, w) && Next(exec, w, w', PruneAll(k))
    ensures Inv(exec, w')
  {
    assert Chains(exec, w') by {
      forall t | t in w'.tabs ensures ChainInv(exec, w', t) {
        assert ChainInv(exec, w, t);
        PrunedChain(exec, w, w', k, t);
      }
    }
    assert TxsOk(exec, w') by {
      forall g, u | g in w'.txs && g in w'.live && u in w'.txs[g] ensures TxInv(exec, w', g, u) {
        assert TxInv(exec, w, g, u);
        PrunedTx(exec, w, w', k, g, u);
      }
    }
    PrunedUnique(w, w', k);
  }

  lemma PrunedUnique<T, S>(w: World<T, S>, w': World<T, S>, k: nat)
    requires Unique(w) && w'.tabs == map t | t in w.tabs :: Prune(w.tabs[t], k)
    ensures Unique(w')
  {
    assert forall t, i :: t in w'.tabs && 0 <= i < |w'.tabs[t]| ==> w'.tabs[t][i] == w.tabs[t][i];
  }

  // ------------------------------------------------------------------ commits

  /** What a commit adds: one version number, one log entry. */
  ghost predicate Logged<T, S>(w: World<T, S>, w': World<T, S>, ws: Writes<S>) {
    w'.curVer == w.curVer + 1 && w'.disk == w.disk && w'.live == w.live && w'.log == w.log + [ws]
  }

  lemma LoggedWrites<T, S>(w: World<T, S>, w': World<T, S>, ws: Writes<S>, t: string, v: nat)
    requires Meta(w) && Logged(w, w', ws)
    ensures Wrote(w', t, v) <==> if v == w'.curVer then t in ws else Wrote(w, t, v)
    ensures w'.log[..|w.log|] == w.log
  {
  }

  /** A written table after a commit: its new head is the serial state. */
  lemma CommittedChain<T, S>(exec: (T, S) -> T, w: World<T, S>, w': World<T, S>, ws: Writes<S>, t: string, p: nat, d: T)
    requires Meta(w) && t in w.tabs && ChainInv(exec, w, t) && Logged(w, w', ws) && t in ws
    requires d == Replay(exec, At(exec, w, t, w.curVer), ws[t])
    requires t in w'.tabs && w'.tabs[t] == [Ver(p, w'.curVer, d)] + w.tabs[t]
    ensures ChainInv(exec, w', t)
  {
    var c, c' := w.tabs[t], w'.tabs[t];
    LoggedWrites(w, w', ws, t, w'.curVer);
    forall v | Oldest(c') <= v <= w'.curVer ensures SeesSerial(exec, w', t, c', v) {
      if v < w'.curVer {
        OldViewSerial(exec, w, w', t, c', v);
      } else {
        HeadSerial(exec, w, w', ws, t);
      }
    }
    forall v: nat | c'[0].id < v ensures !Wrote(w', t, v) {
    }
    assert Descending(c');
  }

  /** The commit check means the base is what a snapshot of now would see. */
  lemma BaseIsHead<T, S>(exec: (T, S) -> T, w: World<T, S>, h: nat, t: string)
    requires Inv(exec, w) == true && h in w.txs && CommitCheck(w, h) && t in Dirty(w.txs[h])
    ensures t in w.tabs && h in w.live && VisIdx(w.tabs[t], w.live[h]) == 0
    ensures w.txs[h][t].work.value == Replay(exec, At(exec, w, t, w.curVer), w.txs[h][t].stmts)
  {
    assert h in w.live && TxInv(exec, w, h, t) && ChainInv(exec, w, t);
    var c := w.tabs[t];
    var i := VisIdx(c, w.live[h]);
    assert c[i].ptr == c[0].ptr;
    VisIdxUnique(c, w.curVer, 0);
    assert Oldest(c) <= c[0].id;
    assert SeesSerial(exec, w, t, c, w.curVer);
  }

  lemma OldViewSerial<T, S>(exec: (T, S) -> T, w: World<T, S>, w': World<T, S>, t: string, c': Chain<T>, v: nat)
    requires t in w.tabs && ChainInv(exec, w, t) && Meta(w) && Oldest(w.tabs[t]) <= v <= w.curVer
    requires w'.disk == w.disk && |w'.log| >= |w.log| && w.log == w'.log[..|w.log|]
    requires c' == w.tabs[t] || (c' != [] && c'[0].id > v && c' == [c'[0]] + w.tabs[t])
    ensures SeesSerial(exec, w', t, c', v)
  {
    var c := w.tabs[t];
    assert SeesSerial(exec, w, t, c, v);
    AtSame(exec, w, w', t, v);
    if c' != c {
      VisIdxPush(c, c'[0], v);
    }
  }

  lemma HeadSerial<T, S>(exec: (T, S) -> T, w: World<T, S>, w': World<T, S>, ws: Writes<S>, t: string)
    requires Meta(w) && Logged(w, w', ws) && t in w.disk
    ensures At(exec, w', t, w'.curVer) ==
            if t in ws then Replay(exec, At(exec, w, t, w.curVer), ws[t]) else At(exec, w, t, w.curVer)
  {
    SerialPush(exec, w.disk[t], w.log, ws, t);
    assert w'.log[..w'.curVer - 1] == w.log + [ws] && w.log[..w.curVer - 1] == w.log;
  }

  /** An unwritten table after a commit. */
  lemma UncommittedChain<T, S>(exec: (T, S) -> T, w: World<T, S>, w': World<T, S>, ws: Writes<S>, t: string)
    requires Meta(w) && t in w.tabs && ChainInv(exec, w, t) && Logged(w, w', ws) && t !in ws
    requires t in w'.tabs && w'.tabs[t] == w.tabs[t]
    ensures ChainInv(exec, w', t)
  {
    var c := w.tabs[t];
    LoggedWrites(w, w', ws, t, c[0].id);
    forall v: nat | c[0].id < v ensures !Wrote(w', t, v) {
      LoggedWrites(w, w', ws, t, v);
    }
    forall v | Oldest(c) <= v <= w'.curVer ensures SeesSerial(exec, w', t, c, v) {
      if v <= w.curVer {
        OldViewSerial(exec, w, w', t, c, v);
      } else {
        UnwrittenNow(exec, w, w', ws, t);
      }
    }
  }

  lemma UnwrittenNow<T, S>(exec: (T, S) -> T, w: World<T, S>, w': World<T, S>, ws: Writes<S>, t: string)
    requires Meta(w) && t in w.tabs && ChainInv(exec, w, t) && Logged(w, w', ws) && t !in ws
    ensures SeesSerial(exec, w', t, w.tabs[t], w'.curVer)
  {
    var c := w.tabs[t];
    assert Oldest(c) <= c[0].id;
    assert SeesSerial(exec, w, t, c, w.curVer);
    HeadSerial(exec, w, w', ws, t);
    VisIdxUnique(c, w'.curVer, 0);
    VisIdxUnique(c, w.curVer, 0);
  }

  lemma CommitUnique<T, S>(w: World<T, S>, w': World<T, S>, h: nat, ptrs: map<string, nat>)
    requires Unique(w) && DoCommit(w, w', h, ptrs)
    ensures Unique(w')
  {
    var dirty := Dirty(w.txs[h]);
    forall u, u', i, j | u in w'.tabs && u' in w'.tabs && 0 <= i < |w'.tabs[u]| && 0 <= j < |w'.tabs[u']| && w'.tabs[u][i].ptr == w'.tabs[u'][j].ptr
      ensures u == u' && i == j
    {
      var a := if u in dirty then i - 1 else i;
      var b := if u' in dirty then j - 1 else j;
      assert a >= 0 ==> w'.tabs[u][i] == w.tabs[u][a] && InUse(w, w.tabs[u][a].ptr);
      assert b >= 0 ==> w'.tabs[u'][j] == w.tabs[u'][b] && InUse(w, w.tabs[u'][b].ptr);
    }
  }

  lemma CommitTx<T, S>(exec: (T, S) -> T, w: World<T, S>, w': World<T, S>, h: nat, ptrs: map<string, nat>, g: nat, u: string)
    requires Inv(exec, w) == true && DoCommit(w, w', h, ptrs) && g in w'.txs && g in w'.live && u in w'.txs[g]
    ensures TxInv(exec, w', g, u)
  {
    assert g in w.txs && u in w.txs[g] && TxInv(exec, w, g, u);
    if u in Dirty(w.txs[h]) {
      VisIdxPush(w.tabs[u], w'.tabs[u][0], w.live[g]);
    }
  }

  lemma CommitChains<T, S>(exec: (T, S) -> T, w: World<T, S>, w': World<T, S>, h: nat, ptrs: map<string, nat>)
    requires Inv(exec, w) == true && DoCommit(w, w', h, ptrs)
    ensures Chains(exec, w')
  {
    var ws: Writes<S> := map t | t in Dirty(w.txs[h]) :: w.txs[h][t].stmts;
    forall t | t in w'.tabs ensures ChainInv(exec, w', t) {
      assert ChainInv(exec, w, t);
      if t in Dirty(w.txs[h]) {
        BaseIsHead(exec, w, h, t);
        CommittedChain(exec, w, w', ws, t, ptrs[t], w.txs[h][t].work.value);
      } else {
        UncommittedChain(exec, w, w', ws, t);
      }
    }
  }

  lemma CommitMeta<T, S>(exec: (T, S) -> T, w: World<T, S>, w': World<T, S>, h: nat, ptrs: map<string, nat>)
    requires Inv(exec, w) == true && DoCommit(w, w', h, ptrs)
    ensures Meta(w')
  {
    forall i, t | 0 <= i < |w'.log| && t in w'.log[i] ensures t in w'.tabs {
      if i < |w.log| {
        assert t in w.log[i];
      } else {
        BaseIsHead(exec, w, h, t);
      }
    }
  }

  lemma CommitInv<T, S>(exec: (T, S) -> T, w: World<T, S>, w': World<T, S>, h: nat, ptrs: map<string, nat>)
    requires Inv(exec, w) == true && DoCommit(w, w', h, ptrs)
    ensures Inv(exec, w')
  {
    CommitMeta(exec, w, w', h, ptrs);
    CommitChains(exec, w, w', h, ptrs);
    CommitUnique(w, w', h, ptrs);
    forall g, u | g in w'.txs && g in w'.live && u in w'.txs[g] ensures TxInv(exec, w', g, u) {
      CommitTx(exec, w, w', h, ptrs, g, u);
    }
  }

  /** Every step keeps the invariant. */
  lemma StepInv<T, S>(exec: (T, S) -> T, w: World<T, S>, w': World<T, S>, step: Step<T, S>)
    requires Inv(exec, w) == true && Next(exec, w, w', step) == true
    ensures Inv(exec, w') == true
  {
    match step
    case Begin(h) => OpenInv(exec, w, w', h);
    case Snap(h) => OpenInv(exec, w, w', h);
    case Load(t, p) => LoadInv(exec, w, w', t, p);
    case View(h, t) => ViewInv(exec, w, w', h, t);
    case Write(h, t, s, seen) => WriteInv(exec, w, w', h, t, s, seen);
    case Commit(h, ptrs) => CommitInv(exec, w, w', h, ptrs);
    case Abort(h) => CloseInv(exec, w, w', h);
    case Release(h) => CloseInv(exec, w, w', h);
    case Stat => StatInv(exec, w, w');
    case PruneAll(k) => PruneInv(exec, w, w', k);
  }

  // --------------------------------------------------------------- whole runs

  ghost predicate Run<T, S>(exec: (T, S) -> T, ws: seq<World<T, S>>, steps: seq<Step<T, S>>) {
    && |ws| == |steps| + 1 && Init(ws[0])
    && forall i {:trigger steps[i]} :: 0 <= i < |steps| ==> Next(exec, ws[i], ws[i + 1], steps[i])
  }

  lemma InitInv<T, S>(exec: (T, S) -> T, w: World<T, S>)
    requires Init(w)
    ensures Inv(exec, w)
  {
    assert forall s: nat :: Holders(w.live, s) == {};
  }

  lemma {:induction false} RunInv<T, S>(exec: (T, S) -> T, ws: seq<World<T, S>>, steps: seq<Step<T, S>>, i: nat)
    requires Run(exec, ws, steps) == true && i < |ws|
    ensures Inv(exec, ws[i]) == true
    decreases i
  {
    if i == 0 {
      InitInv(exec, ws[0]);
    } else {
      RunInv(exec, ws, steps, i - 1);
      StepInv(exec, ws[i - 1], ws[i], steps[i - 1]);
    }
  }

  lemma HeadIsSerial<T, S>(exec: (T, S) -> T, w: World<T, S>, t: string)
    requires Inv(exec, w) == true && t in w.tabs
    ensures t in w.disk && w.tabs[t] != [] && |w.log| == w.curVer - 1 && 1 <= w.tabs[t][0].id <= w.curVer
    ensures w.tabs[t][0].data == At(exec, w, t, w.curVer)
    ensures forall v :: w.tabs[t][0].id < v ==> !Wrote(w, t, v)
  {
    assert ChainInv(exec, w, t);
    var c := w.tabs[t];
    assert Oldest(c) <= c[0].id;
    assert SeesSerial(exec, w, t, c, w.curVer);
    VisIdxUnique(c, w.curVer, 0);
  }

  /** No lost update: in every state of every run, the head of every table is the
      result of running all committed transactions' statements one after another, in
      version order, on the table as loaded. */
  lemma HeadsAreSerial<T, S>(exec: (T, S) -> T, ws: seq<World<T, S>>, steps: seq<Step<T, S>>, i: nat, t: string)
    requires Run(exec, ws, steps) == true && i < |ws| && t in ws[i].tabs
    ensures t in ws[i].disk && ws[i].tabs[t] != []
    ensures ws[i].tabs[t][0].data == Serial(exec, ws[i].disk[t], ws[i].log, t)
  {
    RunInv(exec, ws, steps, i);
    HeadIsSerial(exec, ws[i], t);
    assert ws[i].log[..ws[i].curVer - 1] == ws[i].log;
  }

  /** History is never rewritten: commits only append to it. */
  lemma {:induction false} HistoryGrows<T, S>(exec: (T, S) -> T, ws: seq<World<T, S>>, steps: seq<Step<T, S>>, i: nat, j: nat)
    requires Run(exec, ws, steps) == true && i <= j < |ws|
    ensures ws[j].disk == ws[i].disk && ws[i].log <= ws[j].log && ws[i].curVer <= ws[j].curVer
    decreases j
  {
    if i < j {
      HistoryGrows(exec, ws, steps, i, j - 1);
      assert Next(exec, ws[j - 1], ws[j], steps[j - 1]);
    }
  }

  /** A commit passes its check exactly when no version newer than the transaction's
      snapshot wrote a table the transaction wrote. */
  lemma CommitIffUnchanged<T, S>(exec: (T, S) -> T, w: World<T, S>, h: nat)
    requires Inv(exec, w) && h in w.txs
    ensures h in w.live
    ensures CommitCheck(w, h) <==> forall t, v :: t in Dirty(w.txs[h]) && w.live[h] < v ==> !Wrote(w, t, v)
  {
    assert h in w.live;
    forall t | t in Dirty(w.txs[h])
      ensures t in w.tabs && w.tabs[t] != []
      ensures w.tabs[t][0].ptr == w.txs[h][t].base <==> forall v :: w.live[h] < v ==> !Wrote(w, t, v)
    {
      CommitIffTable(exec, w, h, t);
    }
  }

  lemma CommitIffTable<T, S>(exec: (T, S) -> T, w: World<T, S>, h: nat, t: string)
    requires Inv(exec, w) && h in w.txs && h in w.live && t in w.txs[h]
    ensures t in w.tabs && w.tabs[t] != []
    ensures w.tabs[t][0].ptr == w.txs[h][t].base <==> forall v :: w.live[h] < v ==> !Wrote(w, t, v)
  {
    assert TxInv(exec, w, h, t) && ChainInv(exec, w, t);
    var c, i := w.tabs[t], VisIdx(w.tabs[t], w.live[h]);
    if c[0].ptr == w.txs[h][t].base {
      assert c[i].ptr == c[0].ptr;
      assert i == 0;
      forall v | w.live[h] < v ensures !Wrote(w, t, v) {
        assert c[0].id < v;
      }
    }
    if forall v :: w.live[h] < v ==> !Wrote(w, t, v) {
      assert c[0].id <= w.live[h];
    }
  }

  /** What a reader or transaction sees of a table. */
  ghost function Visible<T, S>(w: World<T, S>, t: string, snap: nat): Option<Ver<T>>
    requires t in w.tabs
  {
    var i := VisIdx(w.tabs[t], snap);
    if i < |w.tabs[t]| then Some(w.tabs[t][i]) else None
  }

  /** A snapshot sees every table as of one version: the commits up to it, and no others. */
  lemma SnapshotIsConsistent<T, S>(exec: (T, S) -> T, w: World<T, S>, h: nat, t: string)
    requires Inv(exec, w) == true && h in w.live && t in w.tabs
    ensures t in w.disk && 1 <= w.live[h] <= |w.log| + 1
    ensures Visible(w, t, w.live[h]).Some? && Visible(w, t, w.live[h]).value.data == At(exec, w, t, w.live[h])
  {
    assert ChainInv(exec, w, t);
    assert SeesSerial(exec, w, t, w.tabs[t], w.live[h]);
  }

  lemma CommitKeepsView<T, S>(exec: (T, S) -> T, w: World<T, S>, w': World<T, S>, g: nat, ptrs: map<string, nat>, h: nat, t: string)
    requires Meta(w) && DoCommit(w, w', g, ptrs) && h in w.live && t in w.tabs
    ensures w'.live == w.live && t in w'.tabs && Visible(w', t, w.live[h]) == Visible(w, t, w.live[h])
  {
    if t in Dirty(w.txs[g]) {
      VisIdxPush(w.tabs[t], w'.tabs[t][0], w.live[h]);
    }
  }

  /** Which steps touch which parts of the world. */
  lemma StepFrame<T, S>(exec: (T, S) -> T, w: World<T, S>, w': World<T, S>, step: Step<T, S>, h: nat)
    requires NextAny(exec, w, w', step) && h in w.live && h in w'.live
    ensures w'.live[h] == w.live[h]
    ensures !step.Commit? && !step.PruneAll? ==> forall t :: t in w.tabs ==> t in w'.tabs && w'.tabs[t] == w.tabs[t]
  {
  }

  /** One step never changes what a handle that stays open sees. */
  lemma StepKeepsView<T, S>(exec: (T, S) -> T, w: World<T, S>, w': World<T, S>, step: Step<T, S>, h: nat, t: string)
    requires Inv(exec, w) == true && Next(exec, w, w', step) == true && h in w.live && h in w'.live && t in w.tabs
    ensures w'.live[h] == w.live[h] && t in w'.tabs
    ensures Visible(w', t, w.live[h]) == Visible(w, t, w.live[h])
  {
    StepFrame(exec, w, w', step, h);
    if step.Commit? {
      CommitKeepsView(exec, w, w', step.h, step.ptrs, h, t);
    } else if step.PruneAll? {
      PruneKeepsView(exec, w, w', step.keep, h, t);
    }
  }

  lemma PruneKeepsView<T, S>(exec: (T, S) -> T, w: World<T, S>, w': World<T, S>, keep: nat, h: nat, t: string)
    requires Inv(exec, w) == true && Next(exec, w, w', PruneAll(keep)) == true && h in w.live && t in w.tabs
    ensures w'.live == w.live && t in w'.tabs && Visible(w', t, w.live[h]) == Visible(w, t, w.live[h])
  {
    assert ChainInv(exec, w, t);
    PrunedView(exec, w, keep, t, h);
  }

  lemma RunKeepsView<T, S>(exec: (T, S) -> T, ws: seq<World<T, S>>, steps: seq<Step<T, S>>, k: nat, h: nat, t: string)
    requires Run(exec, ws, steps) == true && k + 1 < |ws| && h in ws[k].live && h in ws[k + 1].live && t in ws[k].tabs
    ensures ws[k + 1].live[h] == ws[k].live[h] && t in ws[k + 1].tabs
    ensures Visible(ws[k + 1], t, ws[k].live[h]) == Visible(ws[k], t, ws[k].live[h])
  {
    RunInv(exec, ws, steps, k);
    StepKeepsView(exec, ws[k], ws[k + 1], steps[k], h, t);
  }

  /** From acquisition to release a snapshot sees the same version of every table, at
      the same address and never freed, across any commits, aborts and pruning. */
  lemma {:induction false} SnapshotStable<T, S>(exec: (T, S) -> T, ws: seq<World<T, S>>, steps: seq<Step<T, S>>, i: nat, j: nat, h: nat, t: string)
    requires Run(exec, ws, steps) == true && i <= j < |ws| && t in ws[i].tabs
    requires forall k :: i <= k <= j ==> h in ws[k].live
    ensures t in ws[j].tabs && ws[j].live[h] == ws[i].live[h]
    ensures Visible(ws[j], t, ws[i].live[h]) == Visible(ws[i], t, ws[i].live[h])
    ensures Visible(ws[i], t, ws[i].live[h]).Some?
    decreases j
  {
    if i == j {
      RunInv(exec, ws, steps, i);
      SnapshotIsConsistent(exec, ws[i], h, t);
    } else {
      SnapshotStable(exec, ws, steps, i, j - 1, h, t);
      RunKeepsView(exec, ws, steps, j - 1, h, t);
    }
  }

  // ------------------------------------------------------ stale keep ids

  ghost predicate ViewsKept<T, S>(w: World<T, S>, w': World<T, S>) {
    forall h, t :: h in w.live && t in w.tabs ==> t in w'.tabs && Visible(w', t, w.live[h]) == Visible(w, t, w.live[h])
  }

  /** A prune with a keep id read earlier is harmless exactly when the keep id is
      positive, or no live snapshot looks below the head of a longer chain. */
  lemma PruneHarmlessIff<T, S>(exec: (T, S) -> T, w: World<T, S>, w': World<T, S>, k: nat)
    requires Inv(exec, w) == true && k in w.gc && w'.tabs == map t | t in w.tabs :: Prune(w.tabs[t], k)
    ensures ViewsKept(w, w') <==> PruneGuard(w, k)
  {
    if PruneGuard(w, k) {
      PruneSpares(exec, w, w', k);
    } else {
      PruneHarms(exec, w, w', k);
    }
  }

  lemma PruneSpares<T, S>(exec: (T, S) -> T, w: World<T, S>, w': World<T, S>, k: nat)
    requires Inv(exec, w) == true && k in w.gc && PruneGuard(w, k) && w'.tabs == map t | t in w.tabs :: Prune(w.tabs[t], k)
    ensures ViewsKept(w, w')
  {
    forall h, t | h in w.live && t in w.tabs ensures Visible(w', t, w.live[h]) == Visible(w, t, w.live[h]) {
      assert ChainInv(exec, w, t);
      PrunedView(exec, w, k, t, h);
    }
  }

  lemma PruneHarms<T, S>(exec: (T, S) -> T, w: World<T, S>, w': World<T, S>, k: nat)
    requires Inv(exec, w) == true && !PruneGuard(w, k) && w'.tabs == map t | t in w.tabs :: Prune(w.tabs[t], k)
    ensures !ViewsKept(w, w')
  {
    var t, h :| t in w.tabs && h in w.live && w.tabs[t] != [] && w.tabs[t][0].id > w.live[h] && |w.tabs[t]| != 1;
    SnapshotIsConsistent(exec, w, h, t);
    PruneLoses(w.tabs[t], w.live[h]);
    assert Visible(w', t, w.live[h]).None? && Visible(w, t, w.live[h]).Some?;
  }

  lemma PruneLoses<T>(c: Chain<T>, snap: nat)
    requires c != [] && c[0].id > snap
    ensures VisIdx(Prune(c, 0), snap) == |Prune(c, 0)|
  {
    assert c[..1][1..] == [];
  }

  /** Reading the snapshot set and pruning in one go is always harmless. */
  lemma StatThenPruneSafe<T, S>(exec: (T, S) -> T, w: World<T, S>, k: nat)
    requires Inv(exec, w) && KeepId(w.snaps, k)
    ensures PruneGuard(w.(gc := w.gc + multiset{k}), k)
  {
    if k == 0 {
      forall h | h in w.live ensures false {
        CountedMember(w.live, w.snaps, h);
      }
    }
  }

  ghost function Add(x: int, y: int): int { x + y }

  /** ... but a keep id of 0 read before a snapshot was taken is not: at the end of
      this run, whose last step fails the guard, an open snapshot has no version of
      its table left. */
  lemma StaleZeroExample() returns (w0: World<int, int>, w1: World<int, int>, w2: World<int, int>, w3: World<int, int>, w4: World<int, int>,
                                    w5: World<int, int>, w6: World<int, int>, w7: World<int, int>, w8: World<int, int>)
    ensures Init(w0) && NextAny(Add, w0, w1, Stat) == true && NextAny(Add, w1, w2, Snap(1)) == true
    ensures NextAny(Add, w2, w3, Begin(2)) == true && NextAny(Add, w3, w4, Load("t", 10)) == true
    ensures NextAny(Add, w4, w5, View(2, "t")) == true && NextAny(Add, w5, w6, Write(2, "t", 5, 0)) == true
    ensures NextAny(Add, w6, w7, Commit(2, map["t" := 11])) == true && NextAny(Add, w7, w8, PruneAll(0)) == true
    ensures 1 in w8.live && "t" in w8.tabs && Visible(w8, "t", w8.live[1]).None?
  {
    w0, w1, w2, w3, w4 := StaleOpen();
    w5, w6 := StaleWrite(w4);
    w7 := StaleCommit(w6);
    w8 := StalePrune(w7);
  }

  lemma StaleOpen() returns (w0: World<int, int>, w1: World<int, int>, w2: World<int, int>, w3: World<int, int>, w4: World<int, int>)
    ensures Init(w0) && NextAny(Add, w0, w1, Stat) == true && NextAny(Add, w1, w2, Snap(1)) == true
    ensures NextAny(Add, w2, w3, Begin(2)) == true && NextAny(Add, w3, w4, Load("t", 10)) == true
    ensures w4.tabs.Keys == {"t"} && w4.tabs["t"] == [Ver(10, 1, 0)] && w4.curVer == 1 && 0 in w4.gc
    ensures 1 in w4.live && w4.live[1] == 1 && 2 in w4.live && w4.live[2] == 1 && 2 in w4.txs && w4.txs[2] == map[]
  {
    w0 := World(1, multiset{}, map[], map[], map["t" := 0], map[], multiset{}, []);
    w1 := w0.(gc := w0.gc + multiset{0});
    w2 := w1.(snaps := w1.snaps + multiset{1}, live := w1.live[1 := 1]);
    w3 := w2.(snaps := w2.snaps + multiset{1}, live := w2.live[2 := 1], txs := w2.txs[2 := map[]]);
    w4 := w3.(tabs := w3.tabs["t" := [Ver(10, 1, 0)]]);
    assert KeepId(w0.snaps, 0);
  }

  lemma StaleWrite(w: World<int, int>) returns (w1: World<int, int>, w2: World<int, int>)
    requires w.tabs.Keys == {"t"} && w.tabs["t"] == [Ver(10, 1, 0)] && 2 in w.live && w.live[2] == 1 && 2 in w.txs && w.txs[2] == map[]
    ensures NextAny(Add, w, w1, View(2, "t")) == true && NextAny(Add, w1, w2, Write(2, "t", 5, 0)) == true
    ensures w2.tabs == w.tabs && w2.gc == w.gc && w2.live == w.live && w2.curVer == w.curVer
    ensures 2 in w2.txs && w2.txs[2].Keys == {"t"} && w2.txs[2]["t"] == TxTab(10, Some(5), [5])
  {
    assert VisIdx(w.tabs["t"], 1) == 0;
    w1 := w.(txs := w.txs[2 := w.txs[2]["t" := TxTab(10, None, [])]]);
    w2 := w1.(txs := w1.txs[2 := w1.txs[2]["t" := TxTab(10, Some(Add(0, 5)), [] + [5])]]);
  }

  lemma StaleCommit(w: World<int, int>) returns (w': World<int, int>)
    requires w.tabs.Keys == {"t"} && w.tabs["t"] == [Ver(10, 1, 0)] && w.curVer == 1
    requires 2 in w.txs && w.txs[2].Keys == {"t"} && w.txs[2]["t"] == TxTab(10, Some(5), [5])
    ensures NextAny(Add, w, w', Commit(2, map["t" := 11])) == true
    ensures w'.tabs.Keys == {"t"} && w'.tabs["t"] == [Ver(11, 2, 5)] + w.tabs["t"] && w'.gc == w.gc && w'.live == w.live
  {
    var tx, ptrs := w.txs[2], map["t" := 11];
    assert Dirty(tx) == {"t"};
    w' := w.(curVer := 2,
             tabs := Pushed(w.tabs, tx, ptrs, 2),
             txs := w.txs - {2},
             log := w.log + [map t | t in Dirty(tx) :: tx[t].stmts]);
    assert DoCommit(w, w', 2, ptrs);
  }

  lemma StalePrune(w: World<int, int>) returns (w': World<int, int>)
    requires w.tabs.Keys == {"t"} && w.tabs["t"] == [Ver(11, 2, 5)] + [Ver(10, 1, 0)] && 0 in w.gc && 1 in w.live && w.live[1] == 1
    ensures NextAny(Add, w, w', PruneAll(0)) == true
    ensures 1 in w'.live && "t" in w'.tabs && Visible(w', "t", w'.live[1]).None?
  {
    w' := w.(gc := w.gc - multiset{0}, tabs := map t | t in w.tabs :: Prune(w.tabs[t], 0));
    PruneLoses(w.tabs["t"], 1);
  }
}
