/** Table versions with their index trees, through any interleaving of transactions: the
    trees of every committed version hold its rows (src/db/dbapi.c:658-720, 992-1141). */
module IndexRuns {
  import opened Basics
  import opened Text
  import opened EngineSpec
  import opened WriteSpec
  import Versions
  import VersionRuns
  import Commits

  /** A version: its rows, and what its PK tree and its UK trees hold. */
  datatype Ix = Ix(sc: Schema, tab: Tab, pk: map<int, int>, uks: seq<map<int, int>>)

  /** The constraints are kept and the trees hold the rows. */
  ghost predicate Exact(x: Ix) {
    && SchemaOk(x.sc) && x.sc.pk >= 0 && Constraints(x.sc, x.tab)
    && PkHolds(x.sc, x.tab.rows, |x.tab.rows|, x.pk) && UksHold(x.sc, x.tab.rows, x.uks, |x.tab.rows|, 0)
  }

  // ------------------------------------------------------------ what statements do to trees

  /** The index a rebuild gives. */
  ghost function IndexOf(ks: seq<Option<int>>): map<int, int>
    requires Unique(ks)
  {
    map i | 0 <= i < |ks| && ks[i].Some? :: ks[i].value := i
  }

  lemma IndexOfIndexed(ks: seq<Option<int>>)
    requires Unique(ks)
    ensures Indexed(ks, IndexOf(ks)) == true
  {
  }

  ghost function Rebuilt(sc: Schema, tab: Tab): Ix
    requires SchemaOk(sc) && sc.pk >= 0 && RowsOk(sc, tab.rows) && Indexable(sc, tab.rows)
  {
    Ix(sc, tab, IndexOf(PkKeys(sc, tab.rows)),
       seq(|sc.uks|, j requires 0 <= j < |sc.uks| => IndexOf(UkKeys(sc, sc.uks[j], tab.rows))))
  }

  /** A tree takes a key, if there is one. */
  function Put(m: map<int, int>, k: Option<int>, row: nat): map<int, int> {
    if k.None? then m else m[k.value := row]
  }

  /** The UK trees after an INSERT. */
  function PutAll(sc: Schema, uks: seq<map<int, int>>, row: Row, at: nat): (r: seq<map<int, int>>)
    requires SchemaOk(sc) && |uks| == |sc.uks| && |row| == |sc.cols|
    ensures |r| == |uks| && forall j :: 0 <= j < |uks| ==> r[j] == Put(uks[j], TextKey(row[sc.uks[j]], sc.rec), at)
  {
    seq(|uks|, j requires 0 <= j < |uks| => Put(uks[j], TextKey(row[sc.uks[j]], sc.rec), at))
  }

  /** A statement on a version: INSERT adds the new keys to the trees, under the id it read;
      UPDATE and DELETE build them anew.  A statement that fails leaves the version. */
  ghost function ExecIx(x: Ix, s: Stmt): Ix {
    if !(SchemaOk(x.sc) && x.sc.pk >= 0 && RowsOk(x.sc, x.tab.rows) && |x.uks| == |x.sc.uks| && Exec(x.sc, x.tab, s).Some?) then x
    else
      var t := Exec(x.sc, x.tab, s).value;
      if s.InsertStmt? then
        var n := RowNew(x.sc, SplitCsv(s.text, x.sc.rec), x.tab.next);
        Ix(x.sc, t, x.pk[n.id := |x.tab.rows|], PutAll(x.sc, x.uks, n.row, |x.tab.rows|))
      else if RowsOk(x.sc, t.rows) && Indexable(x.sc, t.rows) then Rebuilt(x.sc, t)
      else x
  }

  lemma RebuiltExact(sc: Schema, tab: Tab)
    requires SchemaOk(sc) && sc.pk >= 0 && Constraints(sc, tab)
    ensures Exact(Rebuilt(sc, tab)) == true
  {
    var x, n := Rebuilt(sc, tab), |tab.rows|;
    IndexOfIndexed(PkKeys(sc, tab.rows));
    assert PkKeys(sc, tab.rows)[..n] == PkKeys(sc, tab.rows);
    forall j | 0 <= j < |x.uks| ensures UkHolds(sc, tab.rows, j, n, x.uks[j]) {
      var ks := UkKeys(sc, sc.uks[j], tab.rows);
      assert Unique(ks);
      IndexOfIndexed(ks);
      assert ks[..n] == ks;
    }
  }

  // ------------------------------------------------------------ INSERT

  lemma PutIndexed(ks: seq<Option<int>>, m: map<int, int>, k: Option<int>)
    requires Indexed(ks, m) && (k.Some? ==> k !in ks)
    ensures Indexed(ks + [k], Put(m, k, |ks|)) == true
  {
    IndexedPush(ks, m, k);
  }

  lemma PkPut(sc: Schema, rows: seq<Row>, row: Row, id: int, m: map<int, int>)
    requires Sized(sc) && sc.pk >= 0 && RowsOk(sc, rows) && |row| == |sc.cols| && PkHolds(sc, rows, |rows|, m) && Some(id) !in PkKeys(sc, rows)
    ensures RowsOk(sc, rows + [row])
    ensures PkHolds(sc, rows + [row], |rows| + 1, m[id := |rows|]) == (PkKey(sc, row) == Some(id))
  {
    var ks := PkKeys(sc, rows);
    PkKeysPush(sc, rows, row);
    assert ks[..|rows|] == ks && PkKeys(sc, rows + [row])[..|rows|] == ks;
    PutIndexed(ks, m, Some(id));
    AppendedPk(sc, rows, row, id, m[id := |rows|]);
  }

  lemma UkPut(sc: Schema, rows: seq<Row>, row: Row, j: nat, m: map<int, int>)
    requires SchemaOk(sc) && RowsOk(sc, rows) && |row| == |sc.cols| && RowsOk(sc, rows + [row]) && j < |sc.uks| && UkHolds(sc, rows, j, |rows|, m)
    requires TextFree(sc, rows, sc.uks[j], row[sc.uks[j]], -1)
    ensures UkHolds(sc, rows + [row], j, |rows| + 1, Put(m, TextKey(row[sc.uks[j]], sc.rec), |rows|)) == true
  {
    var ks, ks', k := UkKeys(sc, sc.uks[j], rows), UkKeys(sc, sc.uks[j], rows + [row]), TextKey(row[sc.uks[j]], sc.rec);
    KeysPush(sc, rows, row);
    assert ks' == ks + [k];
    assert ks[..|rows|] == ks && ks'[..|rows| + 1] == ks';
    forall i | 0 <= i < |ks| && k.Some? ensures ks[i] != k {
      UkKeyAt(sc, rows, sc.uks[j], i);
    }
    PutIndexed(ks, m, k);
  }

  lemma UksPut(sc: Schema, rows: seq<Row>, row: Row, ms: seq<map<int, int>>, n: nat)
    requires SchemaOk(sc) && RowsOk(sc, rows) && |row| == |sc.cols| && RowsOk(sc, rows + [row]) && UksHold(sc, rows, ms, |rows|, 0)
    requires TextsFree(sc, rows, row, |sc.uks|) && n == |rows| + 1
    ensures UksHold(sc, rows + [row], PutAll(sc, ms, row, |rows|), n, 0) == true
  {
    var ms' := PutAll(sc, ms, row, |rows|);
    forall j | 0 <= j < |ms'| ensures UkHolds(sc, rows + [row], j, n, ms'[j]) {
      assert UkHolds(sc, rows, j, |rows|, ms[j]) && TextFree(sc, rows, sc.uks[j], row[sc.uks[j]], -1);
      UkPut(sc, rows, row, j, ms[j]);
    }
  }

  /** After an INSERT that succeeds the trees hold the rows exactly when its id field reads
      the same before and after it is trimmed. */
  lemma InsertExact(x: Ix, text: Str)
    requires Exact(x) && LONG_MIN <= x.tab.next < LONG_END && Exec(x.sc, x.tab, InsertStmt(text)).Some?
    ensures Exact(ExecIx(x, InsertStmt(text))) == GoodId(x.sc, InsertStmt(text))
  {
    var sc, rows, vals := x.sc, x.tab.rows, SplitCsv(text, x.sc.rec);
    var n := RowNew(sc, vals, x.tab.next);
    PkPut(sc, rows, n.row, n.id, x.pk);
    UksPut(sc, rows, n.row, x.uks, |rows| + 1);
    NewRowKeyIff(sc, vals, x.tab.next);
    ExecKeeps(sc, x.tab, InsertStmt(text));
    if GoodId(sc, InsertStmt(text)) {
      GoodIdSafe(sc, x.tab, InsertStmt(text));
    }
  }

  lemma ExecExact(x: Ix, s: Stmt)
    requires Exact(x) == true && LONG_MIN <= x.tab.next < LONG_END
    ensures Exec(x.sc, x.tab, s).Some? ==> Exact(ExecIx(x, s)) == GoodId(x.sc, s)
    ensures Exec(x.sc, x.tab, s).None? ==> ExecIx(x, s) == x
  {
    if Exec(x.sc, x.tab, s).Some? {
      if s.InsertStmt? {
        InsertExact(x, s.text);
      } else {
        ExecKeeps(x.sc, x.tab, s);
        RebuiltExact(x.sc, Exec(x.sc, x.tab, s).value);
      }
    }
  }

  // ------------------------------------------------------------ runs

  /** The writes of a run: next ids are in range, and an id given for a new row reads the
      same before and after it is trimmed. */
  ghost predicate WritesRead(steps: seq<Versions.Step<Ix, Stmt>>, n: nat)
    requires n <= |steps|
  {
    forall j :: 0 <= j < n && steps[j].Write? && Exact(steps[j].seen) ==>
      LONG_MIN <= steps[j].seen.tab.next < LONG_END && GoodId(steps[j].seen.sc, steps[j].s)
  }

  /** In every run with such writes the trees of every version of every table hold its rows,
      and the rows keep their constraints. */
  lemma VersionsKeepIndexes(ws: seq<Versions.World<Ix, Stmt>>, steps: seq<Versions.Step<Ix, Stmt>>, i: nat, t: string, k: nat)
    requires VersionRuns.Run(ExecIx, ws, steps) == true && i < |ws| && |steps| + 1 == |ws| && WritesRead(steps, i)
    requires forall u :: u in ws[0].disk ==> Exact(ws[0].disk[u])
    requires t in ws[i].tabs && k < |ws[i].tabs[t]|
    ensures Exact(ws[i].tabs[t][k].data) == true
  {
    var good := (x: Ix) => Exact(x);
    forall j | 0 <= j < i ensures Commits.GoodStep(ExecIx, good, steps[j]) {
      if steps[j].Write? && Exact(steps[j].seen) {
        ExecExact(steps[j].seen, steps[j].s);
      }
    }
    Commits.RunGood(ExecIx, good, ws, steps, i);
    assert good(ws[i].tabs[t][k].data);
  }
}
