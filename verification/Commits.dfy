/** What every committed version keeps: the constraints of src/db/dbapi.c:557-720 and
    992-1141 through any interleaving of transactions. */
module Commits {
  import opened Basics
  import opened Text
  import opened EngineSpec
  import opened Versions
  import VersionRuns
  import WriteSpec

  // ------------------------------------------------------------ any property of tables

  /** Every version in every chain, and every private copy, has the property. */
  ghost predicate AllGood<T, S>(good: T -> bool, w: World<T, S>) {
    && (forall t, k :: t in w.tabs && 0 <= k < |w.tabs[t]| ==> good(w.tabs[t][k].data))
    && (forall h, t :: h in w.txs && t in w.txs[h] && w.txs[h][t].work.Some? ==> good(w.txs[h][t].work.value))
  }

  ghost predicate DiskGood<T, S>(good: T -> bool, w: World<T, S>) {
    forall t :: t in w.disk ==> good(w.disk[t])
  }

  /** A write that, run on a good table, leaves a good table. */
  ghost predicate GoodStep<T, S>(exec: (T, S) -> T, good: T -> bool, step: Step<T, S>) {
    step.Write? && good(step.seen) ==> good(exec(step.seen, step.s))
  }

  /** What a statement works on is the transaction's own copy or the version it saw. */
  lemma SeenGood<T, S>(exec: (T, S) -> T, good: T -> bool, w: World<T, S>, w': World<T, S>, h: nat, t: string, s: S, seen: T)
    requires Inv(exec, w) && AllGood(good, w) && DoWrite(exec, w, w', h, t, s, seen)
    ensures good(seen)
  {
    if w.txs[h][t].work.None? {
      assert TxInv(exec, w, h, t);
      var i := VisIdx(w.tabs[t], w.live[h]);
      assert seen == w.tabs[t][i].data;
    }
  }

  lemma WriteGood<T, S>(exec: (T, S) -> T, good: T -> bool, w: World<T, S>, w': World<T, S>, h: nat, t: string, s: S, seen: T)
    requires AllGood(good, w) && DoWrite(exec, w, w', h, t, s, seen) && good(exec(seen, s))
    ensures AllGood(good, w') == true
  {
  }

  lemma CommitGood<T, S>(good: T -> bool, w: World<T, S>, w': World<T, S>, h: nat, ptrs: map<string, nat>)
    requires AllGood(good, w) && DoCommit(w, w', h, ptrs)
    ensures AllGood(good, w') == true
  {
    forall t, k | t in w'.tabs && 0 <= k < |w'.tabs[t]| ensures good(w'.tabs[t][k].data) {
      if t in Dirty(w.txs[h]) && k > 0 {
        assert w'.tabs[t][k] == w.tabs[t][k - 1];
      }
    }
  }

  lemma PruneGood<T, S>(good: T -> bool, w: World<T, S>, w': World<T, S>, keep: nat)
    requires AllGood(good, w) && w'.txs == w.txs && w'.tabs == map t | t in w.tabs :: Prune(w.tabs[t], keep)
    ensures AllGood(good, w') == true
  {
    forall t, k | t in w'.tabs && 0 <= k < |w'.tabs[t]| ensures good(w'.tabs[t][k].data) {
      assert w'.tabs[t][k] == w.tabs[t][k];
    }
  }

  /** The steps that touch no table data. */
  lemma QuietGood<T, S>(exec: (T, S) -> T, good: T -> bool, w: World<T, S>, w': World<T, S>, step: Step<T, S>)
    requires AllGood(good, w) && NextAny(exec, w, w', step) && !step.Write? && !step.Commit? && !step.PruneAll? && !step.Load?
    ensures AllGood(good, w') == true
  {
    assert w'.tabs == w.tabs;
    forall h, t | h in w'.txs && t in w'.txs[h] && w'.txs[h][t].work.Some? ensures h in w.txs && t in w.txs[h] && w'.txs[h][t] == w.txs[h][t] {
    }
  }

  lemma StepGood<T, S>(exec: (T, S) -> T, good: T -> bool, w: World<T, S>, w': World<T, S>, step: Step<T, S>)
    requires Inv(exec, w) == true && AllGood(good, w) == true && DiskGood(good, w) && Next(exec, w, w', step) == true && GoodStep(exec, good, step)
    ensures AllGood(good, w') == true && w'.disk == w.disk
  {
    match step
    case Write(h, t, s, seen) =>
      SeenGood(exec, good, w, w', h, t, s, seen);
      WriteGood(exec, good, w, w', h, t, s, seen);
    case Commit(h, ptrs) => CommitGood(good, w, w', h, ptrs);
    case PruneAll(keep) => PruneGood(good, w, w', keep);
    case Load(t, p) => LoadGood(good, w, w', t, p);
    case _ => QuietGood(exec, good, w, w', step);
  }

  lemma LoadGood<T, S>(good: T -> bool, w: World<T, S>, w': World<T, S>, t: string, p: nat)
    requires AllGood(good, w) && t in w.disk && good(w.disk[t]) && w' == w.(tabs := w.tabs[t := [Ver(p, 1, w.disk[t])]])
    ensures AllGood(good, w') == true
  {
  }

  /** In a run whose writes keep a property of tables, starting from tables that have it,
      every version of every table has it ... */
  lemma {:induction false} RunGood<T, S>(exec: (T, S) -> T, good: T -> bool, ws: seq<World<T, S>>, steps: seq<Step<T, S>>, i: nat)
    requires VersionRuns.Run(exec, ws, steps) == true && i < |ws| && DiskGood(good, ws[0])
    requires forall j :: 0 <= j < i ==> GoodStep(exec, good, steps[j])
    ensures AllGood(good, ws[i]) == true && ws[i].disk == ws[0].disk
    decreases i
  {
    if i != 0 {
      var j := i - 1;
      RunGood(exec, good, ws, steps, j);
      VersionRuns.RunInv(exec, ws, steps, j);
      StepGood(exec, good, ws[j], ws[i], steps[j]);
    }
  }

  /** ... and only in such a run do all versions and private copies have it. */
  lemma RunGoodOnly<T, S>(exec: (T, S) -> T, good: T -> bool, ws: seq<World<T, S>>, steps: seq<Step<T, S>>, i: nat, j: nat)
    requires VersionRuns.Run(exec, ws, steps) == true && j < i < |ws|
    requires forall k :: 0 <= k <= i ==> AllGood(good, ws[k])
    ensures GoodStep(exec, good, steps[j]) == true
  {
    var k := j + 1;
    assert AllGood(good, ws[k]) && Next(exec, ws[j], ws[k], steps[j]);
    if steps[j].Write? {
      WrittenGood(exec, good, ws[j], ws[k], steps[j].h, steps[j].t, steps[j].s, steps[j].seen);
    }
  }

  lemma WrittenGood<T, S>(exec: (T, S) -> T, good: T -> bool, w: World<T, S>, w': World<T, S>, h: nat, t: string, s: S, seen: T)
    requires AllGood(good, w') && DoWrite(exec, w, w', h, t, s, seen)
    ensures good(exec(seen, s))
  {
    assert w'.txs[h][t].work == Some(exec(seen, s));
  }

  // ------------------------------------------------------------ the engine's tables

  datatype Table = Table(sc: Schema, tab: WriteSpec.Tab)

  /** A table with a PK that keeps its constraints. */
  ghost predicate Sound(x: Table) {
    SchemaOk(x.sc) && x.sc.pk >= 0 && WriteSpec.Constraints(x.sc, x.tab)
  }

  /** exec_stmt on a table; a statement that fails leaves it, and its transaction does not
      commit. */
  ghost function ExecOn(x: Table, s: WriteSpec.Stmt): Table {
    if SchemaOk(x.sc) && x.sc.pk >= 0 && RowsOk(x.sc, x.tab.rows) && WriteSpec.Exec(x.sc, x.tab, s).Some?
    then Table(x.sc, WriteSpec.Exec(x.sc, x.tab, s).value)
    else x
  }

  /** The next id of a table that is written to is in range. */
  ghost predicate InRange(steps: seq<Step<Table, WriteSpec.Stmt>>, n: nat)
    requires n <= |steps|
  {
    forall j :: 0 <= j < n && steps[j].Write? ==> LONG_MIN <= steps[j].seen.tab.next < LONG_END
  }

  /** The statement fails, or the id it gives, if it gives one, is safe. */
  ghost predicate SafeOn(x: Table, s: WriteSpec.Stmt) {
    Sound(x) && WriteSpec.Exec(x.sc, x.tab, s).Some? ==> WriteSpec.IdSafe(x.sc, x.tab, s)
  }

  ghost predicate WritesSafe(steps: seq<Step<Table, WriteSpec.Stmt>>, n: nat)
    requires n <= |steps|
  {
    forall j :: 0 <= j < n && steps[j].Write? ==> SafeOn(steps[j].seen, steps[j].s)
  }

  lemma ExecSound(x: Table, s: WriteSpec.Stmt)
    requires Sound(x) == true && LONG_MIN <= x.tab.next < LONG_END
    ensures Sound(ExecOn(x, s)) == SafeOn(x, s)
  {
    if WriteSpec.Exec(x.sc, x.tab, s).Some? {
      WriteSpec.ExecKeeps(x.sc, x.tab, s);
    }
  }

  /** Every version of every table in every run whose writes are safe has unique PKs, unique
      non-empty UKs, filled NN columns and ids below the next one, if the loaded tables do. */
  lemma VersionsKeepConstraints(ws: seq<World<Table, WriteSpec.Stmt>>, steps: seq<Step<Table, WriteSpec.Stmt>>, i: nat, t: string, k: nat)
    requires VersionRuns.Run(ExecOn, ws, steps) == true && i < |ws| && |steps| + 1 == |ws| && InRange(steps, i) && WritesSafe(steps, i)
    requires forall u :: u in ws[0].disk ==> Sound(ws[0].disk[u])
    requires t in ws[i].tabs && k < |ws[i].tabs[t]|
    ensures Sound(ws[i].tabs[t][k].data) == true
  {
    var good := (x: Table) => Sound(x);
    forall j | 0 <= j < i ensures GoodStep(ExecOn, good, steps[j]) {
      if steps[j].Write? && Sound(steps[j].seen) {
        ExecSound(steps[j].seen, steps[j].s);
      }
    }
    RunGood(ExecOn, good, ws, steps, i);
    assert good(ws[i].tabs[t][k].data);
  }

  /** And only then: if in every state of a run all versions and all private copies keep
      their constraints, its writes were safe. */
  lemma OnlySafeWritesKeep(ws: seq<World<Table, WriteSpec.Stmt>>, steps: seq<Step<Table, WriteSpec.Stmt>>, i: nat)
    requires VersionRuns.Run(ExecOn, ws, steps) == true && i < |ws| && |steps| + 1 == |ws| && InRange(steps, i)
    requires forall k :: 0 <= k <= i ==> AllGood((x: Table) => Sound(x), ws[k])
    ensures WritesSafe(steps, i)
  {
    var good := (x: Table) => Sound(x);
    forall j | 0 <= j < i && steps[j].Write? ensures SafeOn(steps[j].seen, steps[j].s) {
      RunGoodOnly(ExecOn, good, ws, steps, i, j);
      if Sound(steps[j].seen) {
        ExecSound(steps[j].seen, steps[j].s);
      }
    }
  }
}
