/** What transactions commit, by the statements they issued
    (src/db/dbapi.c:937-984, 1304-1335, 1370-1392). */
module History {
  import opened Basics
  import opened Versions
  import VersionRuns

  /** A transaction begins with nothing, and issues one statement after another. */
  ghost function With<T, S>(issued: seq<S>, step: Step<T, S>, h: nat, t: string): seq<S> {
    match step
    case Begin(g) => if g == h then [] else issued
    case Write(g, u, s, _) => if g == h && u == t then issued + [s] else issued
    case _ => issued
  }

  /** The statements a transaction has issued on a table since it began, among the first i
      steps of a run. */
  ghost function Issued<T, S>(steps: seq<Step<T, S>>, i: nat, h: nat, t: string): seq<S>
    requires i <= |steps|
  {
    if i == 0 then [] else With(Issued(steps, i - 1, h, t), steps[i - 1], h, t)
  }

  /** What a transaction has recorded for a table. */
  ghost function Recorded<T, S>(w: World<T, S>, h: nat, t: string): seq<S>
    requires h in w.txs
  {
    if t in w.txs[h] then w.txs[h][t].stmts else []
  }

  ghost predicate WorkRecorded<T, S>(w: World<T, S>, h: nat)
    requires h in w.txs
  {
    forall t :: t in w.txs[h] ==> (w.txs[h][t].work.Some? <==> w.txs[h][t].stmts != [])
  }

  lemma StepRecords<T, S>(exec: (T, S) -> T, w: World<T, S>, w': World<T, S>, step: Step<T, S>, h: nat, t: string)
    requires NextAny(exec, w, w', step) && h in w'.txs
    ensures step == Begin(h) ==> Recorded(w', h, t) == []
    ensures step != Begin(h) ==> h in w.txs && Recorded(w', h, t) == With(Recorded(w, h, t), step, h, t)
  {
  }

  lemma StepWorks<T, S>(exec: (T, S) -> T, w: World<T, S>, w': World<T, S>, step: Step<T, S>, h: nat)
    requires NextAny(exec, w, w', step) && h in w'.txs && (h in w.txs && step != Begin(h) ==> WorkRecorded(w, h))
    ensures WorkRecorded(w', h) == true
  {
  }

  lemma IssuedNext<T, S>(steps: seq<Step<T, S>>, m: nat, i: nat, h: nat, t: string)
    requires m + 1 == i <= |steps|
    ensures Issued(steps, i, h, t) == With(Issued(steps, m, h, t), steps[m], h, t)
  {
  }

  /** What is recorded is what was issued. */
  lemma {:induction false} RecordedIsIssued<T, S>(exec: (T, S) -> T, ws: seq<World<T, S>>, steps: seq<Step<T, S>>, i: nat, h: nat, t: string)
    requires VersionRuns.Run(exec, ws, steps) == true && i < |ws| == |steps| + 1 && h in ws[i].txs
    ensures Recorded(ws[i], h, t) == Issued(steps, i, h, t) && WorkRecorded(ws[i], h) == true
    decreases i
  {
    if i != 0 {
      var m := i - 1;
      assert Next(exec, ws[m], ws[i], steps[m]);
      StepRecords(exec, ws[m], ws[i], steps[m], h, t);
      IssuedNext(steps, m, i, h, t);
      if steps[m] != Begin(h) {
        RecordedIsIssued(exec, ws, steps, m, h, t);
      }
      StepWorks(exec, ws[m], ws[i], steps[m], h);
    }
  }

  /** A commit adds to the history exactly the statements the transaction issued, table by
      table and in their order, and no other step adds anything. */
  lemma CommitLogsIssued<T, S>(exec: (T, S) -> T, ws: seq<World<T, S>>, steps: seq<Step<T, S>>, i: nat, t: string)
    requires VersionRuns.Run(exec, ws, steps) == true && i < |steps| && |ws| == |steps| + 1
    ensures !steps[i].Commit? ==> ws[i + 1].log == ws[i].log
    ensures steps[i].Commit? ==>
              && |ws[i + 1].log| == |ws[i].log| + 1 && ws[i + 1].log[..|ws[i].log|] == ws[i].log
              && var writes := ws[i + 1].log[|ws[i].log|]; var issued := Issued(steps, i, steps[i].h, t);
              && (t in writes <==> issued != []) && (t in writes ==> writes[t] == issued)
  {
    assert Next(exec, ws[i], ws[i + 1], steps[i]);
    if steps[i].Commit? {
      RecordedIsIssued(exec, ws, steps, i, steps[i].h, t);
    }
  }

  lemma SeenIsReplay<T, S>(exec: (T, S) -> T, w: World<T, S>, w': World<T, S>, h: nat, t: string, s: S, seen: T)
    requires Inv(exec, w) && DoWrite(exec, w, w', h, t, s, seen)
    ensures h in w.live && t in w.tabs && t in w.disk && 1 <= w.live[h] <= |w.log| + 1
    ensures var i := VisIdx(w.tabs[t], w.live[h]); i < |w.tabs[t]| && seen == Replay(exec, w.tabs[t][i].data, w.txs[h][t].stmts)
  {
    assert h in w.live && TxInv(exec, w, h, t);
    assert ChainInv(exec, w, t);
    var c, i := w.tabs[t], VisIdx(w.tabs[t], w.live[h]);
    assert SeesSerial(exec, w, t, c, w.live[h]);
    if w.txs[h][t].work.None? {
      assert c[i].ptr == w.txs[h][t].base;
    }
  }

  /** Every statement of a transaction works on the table as its snapshot sees it, with the
      transaction's own earlier statements applied, whatever others have committed since. */
  lemma SeesOwnWrites<T, S>(exec: (T, S) -> T, ws: seq<World<T, S>>, steps: seq<Step<T, S>>, i: nat)
    requires VersionRuns.Run(exec, ws, steps) == true && i < |steps| && |ws| == |steps| + 1 && steps[i].Write?
    ensures var w, h, t := ws[i], steps[i].h, steps[i].t;
            && h in w.live && t in w.disk && 1 <= w.live[h] <= |w.log| + 1
            && steps[i].seen == Replay(exec, At(exec, w, t, w.live[h]), Issued(steps, i, h, t))
  {
    var w, h, t := ws[i], steps[i].h, steps[i].t;
    assert Next(exec, ws[i], ws[i + 1], steps[i]);
    VersionRuns.RunInv(exec, ws, steps, i);
    SeenIsReplay(exec, w, ws[i + 1], h, t, steps[i].s, steps[i].seen);
    VersionRuns.SnapshotIsConsistent(exec, w, h, t);
    RecordedIsIssued(exec, ws, steps, i, h, t);
  }
}
