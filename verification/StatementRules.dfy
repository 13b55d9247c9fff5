/** What INSERT, UPDATE and DELETE do to the rows, said of the fields and cells themselves
    (src/db/dbapi.c:607-685, 992-1141). */
module StatementRules {
  import opened Basics
  import opened Text
  import opened EngineSpec
  import opened WriteSpec
  import opened Conditions
  import Csv
  import TextRules

  // ------------------------------------------------------------ keys

  /** Two texts are the same key exactly when they are the same after normalising. */
  lemma SameTextKey(a: Str, b: Str, rec: nat)
    requires rec > 0
    ensures TextKey(a, rec).Some? <==> Norm(a, rec) != []
    ensures TextKey(a, rec).Some? ==> (TextKey(a, rec) == TextKey(b, rec) <==> Norm(a, rec) == Norm(b, rec))
  {
    RankOrder(Norm(a, rec), Norm(b, rec), rec);
  }

  ghost predicate PksApart(sc: Schema, rows: seq<Row>)
    requires Sized(sc) && RowsOk(sc, rows)
  {
    sc.pk >= 0 ==>
      && (forall i :: 0 <= i < |rows| ==> ParseL(rows[i][sc.pk]).Some?)
      && (forall i, j :: 0 <= i < j < |rows| ==> ParseL(rows[i][sc.pk]) != ParseL(rows[j][sc.pk]))
  }

  /** No two rows have the same text in column c, unless it is empty. */
  ghost predicate TextsApart(sc: Schema, rows: seq<Row>, c: nat)
    requires Sized(sc) && RowsOk(sc, rows) && c < |sc.cols|
  {
    forall i, j :: 0 <= i < j < |rows| && Norm(rows[i][c], sc.rec) != [] ==> Norm(rows[i][c], sc.rec) != Norm(rows[j][c], sc.rec)
  }

  lemma PksApartIff(sc: Schema, rows: seq<Row>)
    requires Sized(sc) && RowsOk(sc, rows) && sc.pk >= 0
    ensures AllKeyed(PkKeys(sc, rows)) && Unique(PkKeys(sc, rows)) <==> PksApart(sc, rows)
  {
    var ks := PkKeys(sc, rows);
    forall i | 0 <= i < |rows| ensures ks[i] == ParseL(rows[i][sc.pk]) {
      PkKeyAt(sc, rows, i);
    }
  }

  lemma TextsApartIff(sc: Schema, rows: seq<Row>, c: nat)
    requires Sized(sc) && RowsOk(sc, rows) && c < |sc.cols|
    ensures Unique(UkKeys(sc, c, rows)) <==> TextsApart(sc, rows, c)
  {
    var ks := UkKeys(sc, c, rows);
    forall i, j | 0 <= i < j < |rows|
      ensures (ks[i].Some? ==> ks[i] != ks[j]) <==> (Norm(rows[i][c], sc.rec) != [] ==> Norm(rows[i][c], sc.rec) != Norm(rows[j][c], sc.rec))
    {
      UkKeyAt(sc, rows, c, i);
      UkKeyAt(sc, rows, c, j);
      SameTextKey(rows[i][c], rows[j][c], sc.rec);
    }
  }

  /** A table can be indexed exactly when its PKs are different numbers and its UK texts are
      different or empty. */
  lemma IndexableIff(sc: Schema, rows: seq<Row>)
    requires SchemaOk(sc) && RowsOk(sc, rows)
    ensures Indexable(sc, rows) <==> PksApart(sc, rows) && forall c :: 0 <= c < |sc.cols| && sc.cols[c].kind == UK ==> TextsApart(sc, rows, c)
  {
    if sc.pk >= 0 {
      PksApartIff(sc, rows);
    }
    forall c | 0 <= c < |sc.cols| ensures Unique(UkKeys(sc, c, rows)) <==> TextsApart(sc, rows, c) {
      TextsApartIff(sc, rows, c);
    }
    UksUniqueIff(sc, rows);
  }

  lemma UksUniqueIff(sc: Schema, rows: seq<Row>)
    requires SchemaOk(sc) && RowsOk(sc, rows)
    ensures UksUnique(sc, rows) <==> forall c :: 0 <= c < |sc.cols| && sc.cols[c].kind == UK ==> Unique(UkKeys(sc, c, rows))
  {
    if UksUnique(sc, rows) {
      forall c | 0 <= c < |sc.cols| && sc.cols[c].kind == UK ensures Unique(UkKeys(sc, c, rows)) {
        var j :| 0 <= j < |sc.uks| && sc.uks[j] == c;
      }
    }
  }

  // ------------------------------------------------------------ INSERT

  /** The id is left out, empty, or NULL. */
  predicate NoId(sc: Schema, vals: seq<Str>)
    requires Sized(sc) && sc.pk >= 0
  {
    |vals| != |sc.cols| || vals[sc.pk] == [] || Norm(vals[sc.pk], sc.rec) == ['N', 'U', 'L', 'L']
  }

  /** As many fields as columns, or one fewer when the first column is the PK. */
  predicate RightCount(sc: Schema, vals: seq<Str>) {
    |vals| == |sc.cols| || (sc.pk == 0 && |vals| + 1 == |sc.cols|)
  }

  /** The field meant for column c. */
  function FieldFor(sc: Schema, vals: seq<Str>, c: nat): Str
    requires RightCount(sc, vals) && c < |sc.cols| && (|vals| == |sc.cols| || c > 0)
  {
    if |vals| == |sc.cols| then vals[c] else vals[c - 1]
  }

  lemma AutoIs(sc: Schema, vals: seq<Str>)
    requires Sized(sc) && sc.pk >= 0 && sc.rec > 4
    ensures AutoId(sc, vals) == NoId(sc, vals) && CountOk(sc, vals) == RightCount(sc, vals)
  {
    assert Cut(Null, sc.rec) == Null;
    NullTrims();
  }

  lemma CellIs(sc: Schema, vals: seq<Str>, id: int, c: nat)
    requires Sized(sc) && sc.pk >= 0 && CountOk(sc, vals) && c < |sc.cols|
    ensures !(c == sc.pk && AutoId(sc, vals)) ==> (|vals| == |sc.cols| || c > 0) && CellsOf(sc, vals, id)[c] == Trim(FieldFor(sc, vals, c))
    ensures c == sc.pk && AutoId(sc, vals) ==> CellsOf(sc, vals, id)[c] == Show(id)
  {
    assert CellsOf(sc, vals, id)[c] == CellOf(sc, vals, id, c);
    ShowTrimmed(id);
  }

  /** What an INSERT that succeeds has added: one row at the end, each cell its own field
      trimmed, also when the id is left out and every field belongs one column further on;
      an id that is not given is the next one. */
  lemma InsertedRow(sc: Schema, t: Tab, text: Str)
    requires SchemaOk(sc) && sc.pk >= 0 && RowsOk(sc, t.rows) && Exec(sc, t, InsertStmt(text)).Some?
    ensures var t' := Exec(sc, t, InsertStmt(text)).value; var vals := SplitCsv(text, sc.rec);
            && RightCount(sc, vals) && |t'.rows| == |t.rows| + 1 && t'.rows[..|t.rows|] == t.rows
            && var row := t'.rows[|t.rows|];
            && |row| == |sc.cols|
            && (forall c :: 0 <= c < |row| && |vals| == |sc.cols| && (c != sc.pk || !NoId(sc, vals)) ==> row[c] == Trim(vals[c]))
            && (forall c :: 0 <= c < |vals| && |vals| != |sc.cols| ==> row[c + 1] == Trim(vals[c]))
            && (NoId(sc, vals) ==> row[sc.pk] == Show(t.next) && t'.next == t.next + 1)
            && (!NoId(sc, vals) ==> ParseL(vals[sc.pk]).Some? && t'.next == if ParseL(vals[sc.pk]).value < t.next then t.next else ParseL(vals[sc.pk]).value + 1)
  {
    var vals := SplitCsv(text, sc.rec);
    var n := RowNew(sc, vals, t.next);
    AutoIs(sc, vals);
    forall c | 0 <= c < |sc.cols|
      ensures !(c == sc.pk && AutoId(sc, vals)) ==> (|vals| == |sc.cols| || c > 0) && n.row[c] == Trim(FieldFor(sc, vals, c))
      ensures c == sc.pk && AutoId(sc, vals) ==> n.row[c] == Show(n.id)
    {
      CellIs(sc, vals, n.id, c);
    }
    assert (t.rows + [n.row])[..|t.rows|] == t.rows;
  }

  /** No row has this number as its PK. */
  ghost predicate IdFree(sc: Schema, rows: seq<Row>, id: int)
    requires Sized(sc) && sc.pk >= 0 && RowsOk(sc, rows)
  {
    forall r :: 0 <= r < |rows| ==> ParseL(rows[r][sc.pk]) != Some(id)
  }

  /** The text is empty, or no row has it in column c. */
  ghost predicate UkFree(sc: Schema, rows: seq<Row>, c: nat, x: Str)
    requires Sized(sc) && RowsOk(sc, rows) && c < |sc.cols|
  {
    Norm(x, sc.rec) != [] ==> forall r :: 0 <= r < |rows| ==> Norm(rows[r][c], sc.rec) != Norm(x, sc.rec)
  }

  /** When an INSERT is taken: there is room; the fields are as many as needed; the id is
      left to the table or a number; NN columns get something; id and UK texts are free. */
  ghost predicate Takes(sc: Schema, t: Tab, vals: seq<Str>)
    requires SchemaOk(sc) && sc.pk >= 0 && RowsOk(sc, t.rows)
  {
    && |t.rows| < 2000000 && RightCount(sc, vals)
    && (NoId(sc, vals) || ParseL(vals[sc.pk]).Some?)
    && NnGiven(sc, vals)
    && IdFree(sc, t.rows, if NoId(sc, vals) then t.next else ParseL(vals[sc.pk]).value)
    && UksFree(sc, t.rows, vals)
  }

  ghost predicate NnGiven(sc: Schema, vals: seq<Str>)
    requires SchemaOk(sc) && sc.pk >= 0 && RightCount(sc, vals)
  {
    forall c :: 0 <= c < |sc.cols| && sc.cols[c].kind == NN ==> Trim(FieldFor(sc, vals, c)) != []
  }

  ghost predicate UksFree(sc: Schema, rows: seq<Row>, vals: seq<Str>)
    requires SchemaOk(sc) && sc.pk >= 0 && RowsOk(sc, rows) && RightCount(sc, vals)
  {
    forall c :: 0 <= c < |sc.cols| && sc.cols[c].kind == UK ==> UkFree(sc, rows, c, Trim(FieldFor(sc, vals, c)))
  }

  lemma IdFreeIff(sc: Schema, rows: seq<Row>, id: int)
    requires Sized(sc) && sc.pk >= 0 && RowsOk(sc, rows)
    ensures (Some(id) !in PkKeys(sc, rows)) == IdFree(sc, rows, id)
  {
    forall i | 0 <= i < |rows| ensures PkKeys(sc, rows)[i] == ParseL(rows[i][sc.pk]) {
      PkKeyAt(sc, rows, i);
    }
    if Some(id) in PkKeys(sc, rows) {
      var i :| 0 <= i < |rows| && PkKeys(sc, rows)[i] == Some(id);
      assert ParseL(rows[i][sc.pk]) == Some(id);
    }
    if !IdFree(sc, rows, id) {
      var i :| 0 <= i < |rows| && ParseL(rows[i][sc.pk]) == Some(id);
      assert PkKeys(sc, rows)[i] == Some(id);
    }
  }

  lemma UkFreeIff(sc: Schema, rows: seq<Row>, c: nat, x: Str)
    requires Sized(sc) && RowsOk(sc, rows) && c < |sc.cols|
    ensures TextFree(sc, rows, c, x, -1) <==> UkFree(sc, rows, c, x)
  {
    SameTextKey(x, x, sc.rec);
    forall r | 0 <= r < |rows| && Norm(x, sc.rec) != [] ensures TextKey(rows[r][c], sc.rec) != TextKey(x, sc.rec) <==> Norm(rows[r][c], sc.rec) != Norm(x, sc.rec) {
      SameTextKey(x, rows[r][c], sc.rec);
    }
  }

  lemma TextsFreeIff(sc: Schema, rows: seq<Row>, row: Row)
    requires SchemaOk(sc) && RowsOk(sc, rows) && |row| == |sc.cols|
    ensures TextsFree(sc, rows, row, |sc.uks|) <==> forall c :: 0 <= c < |sc.cols| && sc.cols[c].kind == UK ==> UkFree(sc, rows, c, row[c])
  {
    forall c | 0 <= c < |sc.cols| ensures TextFree(sc, rows, c, row[c], -1) <==> UkFree(sc, rows, c, row[c]) {
      UkFreeIff(sc, rows, c, row[c]);
    }
    if TextsFree(sc, rows, row, |sc.uks|) {
      forall c | 0 <= c < |sc.cols| && sc.cols[c].kind == UK ensures UkFree(sc, rows, c, row[c]) {
        var j :| 0 <= j < |sc.uks| && sc.uks[j] == c;
        assert TextFree(sc, rows, sc.uks[j], row[sc.uks[j]], -1);
      }
    }
  }

  lemma FilledIff(sc: Schema, vals: seq<Str>, id: int)
    requires SchemaOk(sc) && sc.pk >= 0 && CountOk(sc, vals) && RightCount(sc, vals)
    ensures Filled(sc, CellsOf(sc, vals, id)) == NnGiven(sc, vals)
  {
    CellsAre(sc, vals, id);
    var row := CellsOf(sc, vals, id);
    assert forall c :: 0 <= c < |sc.cols| && sc.cols[c].kind == NN ==> row[c] == Trim(FieldFor(sc, vals, c));
  }

  lemma UksFreeIff(sc: Schema, rows: seq<Row>, vals: seq<Str>, id: int)
    requires SchemaOk(sc) && sc.pk >= 0 && RowsOk(sc, rows) && CountOk(sc, vals) && RightCount(sc, vals)
    ensures TextsFree(sc, rows, CellsOf(sc, vals, id), |sc.uks|) == UksFree(sc, rows, vals)
  {
    CellsAre(sc, vals, id);
    var row := CellsOf(sc, vals, id);
    TextsFreeIff(sc, rows, row);
    assert forall c :: 0 <= c < |sc.cols| && sc.cols[c].kind == UK ==> row[c] == Trim(FieldFor(sc, vals, c));
  }

  lemma AcceptsIff(sc: Schema, t: Tab, vals: seq<Str>)
    requires SchemaOk(sc) == true && sc.pk >= 0 && RowsOk(sc, t.rows) == true && CountOk(sc, vals) && RightCount(sc, vals) && AutoId(sc, vals) == NoId(sc, vals)
    requires NoId(sc, vals) || ParseL(vals[sc.pk]).Some?
    ensures Accepts(sc, t.rows, RowNew(sc, vals, t.next)) == Takes(sc, t, vals)
  {
    var id := if NoId(sc, vals) then t.next else ParseL(vals[sc.pk]).value;
    FilledIff(sc, vals, id);
    UksFreeIff(sc, t.rows, vals, id);
    IdFreeIff(sc, t.rows, id);
  }

  /** An INSERT succeeds exactly when it is taken. */
  lemma InsertTakenIff(sc: Schema, t: Tab, text: Str)
    requires SchemaOk(sc) == true && sc.pk >= 0 && RowsOk(sc, t.rows) == true
    ensures Exec(sc, t, InsertStmt(text)).Some? == Takes(sc, t, SplitCsv(text, sc.rec))
  {
    var vals := SplitCsv(text, sc.rec);
    AutoIs(sc, vals);
    if RightCount(sc, vals) && (NoId(sc, vals) || ParseL(vals[sc.pk]).Some?) {
      AcceptsIff(sc, t, vals);
    }
  }

  lemma CellsAre(sc: Schema, vals: seq<Str>, id: int)
    requires SchemaOk(sc) && sc.pk >= 0 && CountOk(sc, vals)
    ensures var row := CellsOf(sc, vals, id);
            forall c {:trigger row[c]} :: 0 <= c < |sc.cols| && (sc.cols[c].kind == NN || sc.cols[c].kind == UK) ==> (|vals| == |sc.cols| || c > 0) && row[c] == Trim(FieldFor(sc, vals, c))
  {
    forall c | 0 <= c < |sc.cols| && (sc.cols[c].kind == NN || sc.cols[c].kind == UK)
      ensures (|vals| == |sc.cols| || c > 0) && CellsOf(sc, vals, id)[c] == Trim(FieldFor(sc, vals, c))
    {
      CellIs(sc, vals, id, c);
    }
  }

  // ------------------------------------------------------------ INSERT, from values to cells

  /** A value as it is written in the row text: as it is, or in quotes. */
  predicate Written(f: Str, v: Str) {
    Without(v, '\'') && ((f == v && Without(v, ',') && (v == [] || TextRules.Firm(v))) || f == ['\''] + v + ['\''])
  }

  predicate AllWritten(fs: seq<Str>, vs: seq<Str>) {
    |fs| == |vs| && forall i :: 0 <= i < |fs| ==> Written(fs[i], vs[i])
  }

  lemma TrimWritten(f: Str, v: Str)
    requires Written(f, v)
    ensures Trim(f) == v
  {
    if f == v {
      if v == [] {
        TextRules.TrimNothing(v);
      } else {
        TextRules.TrimBare([], v, []);
        assert [] + (v + []) == v;
      }
    } else {
      TextRules.TrimQuoted([], v, []);
      assert [] + (f + []) == f;
    }
  }

  lemma WrittenScan(f: Str, v: Str, rest: Str, left: nat)
    requires Written(f, v) && left > 1
    ensures Fields(f + rest, left, [], false) == Fields(rest, left, f, false)
  {
    if f == v {
      PlainScan(v, rest, left, []);
      assert [] + v == v;
    } else {
      var s := f + rest;
      assert s[0] == '\'' && s[1..] == v + ['\''] + rest;
      Csv.QuotedScan(v, rest, left, ['\'']);
      assert [] + ['\''] == ['\''];
    }
  }

  lemma {:induction false} SplitWritten(fs: seq<Str>, vs: seq<Str>, left: nat)
    requires 0 < |fs| <= left && AllWritten(fs, vs)
    ensures Fields(Csv.Join(fs), left, [], false) == fs
    decreases |fs|
  {
    var f := fs[0];
    assert Written(f, vs[0]);
    if |fs| == 1 {
      assert fs == [f];
      LastField(f, left);
      if left > 1 {
        WrittenScan(f, vs[0], [], left);
        assert f + [] == f;
      }
    } else {
      var tail := Csv.Join(fs[1..]);
      assert Csv.Join(fs) == f + ([','] + tail);
      WrittenScan(f, vs[0], [','] + tail, left);
      Csv.CommaEnds(tail, left, f);
      SplitWritten(fs[1..], vs[1..], left - 1);
      assert [f] + fs[1..] == fs;
    }
  }

  /** Only 15 fields are told apart: what follows the 14th comma outside quotes is one field,
      whatever it holds. */
  lemma {:induction false} SplitRest(fs: seq<Str>, vs: seq<Str>, rest: Str, left: nat)
    requires 0 < |fs| == left - 1 && AllWritten(fs, vs)
    ensures Fields(Csv.Join(fs) + ([','] + rest), left, [], false) == fs + [rest]
    decreases |fs|
  {
    var f := fs[0];
    assert Written(f, vs[0]);
    if |fs| == 1 {
      assert fs == [f];
      WrittenScan(f, vs[0], [','] + rest, left);
      Csv.CommaEnds(rest, left, f);
      LastField(rest, 1);
    } else {
      var tail := Csv.Join(fs[1..]) + ([','] + rest);
      assert Csv.Join(fs) + ([','] + rest) == f + ([','] + tail);
      WrittenScan(f, vs[0], [','] + tail, left);
      Csv.CommaEnds(tail, left, f);
      SplitRest(fs[1..], vs[1..], rest, left - 1);
      assert [f] + (fs[1..] + [rest]) == fs + [rest];
    }
  }

  lemma FifteenFields(fs: seq<Str>, vs: seq<Str>, rest: Str, rec: nat)
    requires |fs| == 14 && AllWritten(fs, vs) && |Csv.Join(fs)| + 1 + |rest| < rec
    ensures SplitCsv(Csv.Join(fs) + ([','] + rest), rec) == fs + [rest]
  {
    SplitRest(fs, vs, rest, 15);
  }

  /** The values of a row text, plain or in quotes, are the cells of the new row in their
      order: column by column, or from the second column on when the id is left out. */
  lemma InsertedValues(sc: Schema, t: Tab, fs: seq<Str>, vs: seq<Str>)
    requires SchemaOk(sc) && sc.pk >= 0 && RowsOk(sc, t.rows) && 0 < |fs| <= MAX_COLS && AllWritten(fs, vs) && |Csv.Join(fs)| < sc.rec
    requires Exec(sc, t, InsertStmt(Csv.Join(fs))).Some?
    ensures var rows := Exec(sc, t, InsertStmt(Csv.Join(fs))).value.rows;
            && |rows| == |t.rows| + 1 && rows[..|t.rows|] == t.rows
            && var row := rows[|t.rows|];
            && |row| == |sc.cols| && (|vs| == |row| || (sc.pk == 0 && |vs| + 1 == |row|))
            && (|vs| == |row| ==> forall c :: 0 <= c < |row| && (c != sc.pk || !NoId(sc, fs)) ==> row[c] == vs[c])
            && (|vs| != |row| ==> forall c :: 0 <= c < |vs| ==> row[c + 1] == vs[c])
  {
    SplitWritten(fs, vs, MAX_COLS);
    assert SplitCsv(Csv.Join(fs), sc.rec) == fs;
    InsertedRow(sc, t, Csv.Join(fs));
    forall i | 0 <= i < |fs| ensures Trim(fs[i]) == vs[i] {
      assert Written(fs[i], vs[i]);
      TrimWritten(fs[i], vs[i]);
    }
  }

  // ------------------------------------------------------------ UPDATE

  /** The row is what every condition asks for. */
  ghost predicate Asked(sc: Schema, conds: seq<Cond>, row: Row)
    requires Sized(sc) && |row| == |sc.cols|
  {
    forall i :: 0 <= i < |conds| ==> Asks(sc, conds[i], row)
  }

  lemma FlagsAre(sc: Schema, conds: seq<Cond>, rows: seq<Row>, i: nat)
    requires Sized(sc) && RowsOk(sc, rows) && i < |rows|
    ensures Flags(sc, conds, rows)[i] == Asked(sc, conds, rows[i])
  {
    MatchesIff(sc, conds, rows[i]);
    assert Flags(sc, conds, rows)[i] == Matches(sc, conds, rows[i]);
  }

  /** Whether an UPDATE may set column c to v: it has conditions, the column is not the PK,
      and an NN column gets something. */
  predicate MaySet(sc: Schema, conds: seq<Cond>, c: int, v: Str) {
    |conds| > 0 && 0 <= c < |sc.cols| && c != sc.pk && (sc.cols[c].kind == NN ==> v != [])
  }

  /** The rows with column c set to v exactly where the conditions hold. */
  ghost predicate SetWhere(sc: Schema, conds: seq<Cond>, c: int, v: Str, rows: seq<Row>, rows': seq<Row>)
    requires Sized(sc) && RowsOk(sc, rows) && 0 <= c < |sc.cols|
  {
    && |rows'| == |rows|
    && forall i :: 0 <= i < |rows| ==> rows'[i] == if Asked(sc, conds, rows[i]) then rows[i][c := v] else rows[i]
  }

  /** An UPDATE that succeeds has set the named column, and nothing else, in exactly the rows
      the conditions ask for, to the value normalised to at most 255 characters. */
  lemma UpdatedRows(sc: Schema, t: Tab, col: Str, val: Str, conds: seq<Cond>)
    requires SchemaOk(sc) && sc.pk >= 0 && RowsOk(sc, t.rows) && Exec(sc, t, UpdateStmt(col, val, conds)).Some?
    ensures var t' := Exec(sc, t, UpdateStmt(col, val, conds)).value; var c := ColIdx(sc.cols, col);
            Named(sc, col, c) && MaySet(sc, conds, c, Norm(val, 256)) && t'.next == t.next && SetWhere(sc, conds, c, Norm(val, 256), t.rows, t'.rows)
  {
    forall i | 0 <= i < |t.rows| ensures Flags(sc, conds, t.rows)[i] == Asked(sc, conds, t.rows[i]) {
      FlagsAre(sc, conds, t.rows, i);
    }
  }

  /** It succeeds exactly when there are conditions, the column is known, is not the PK and
      may hold the value, and after it the keys are still apart. */
  lemma UpdateTakenIff(sc: Schema, t: Tab, col: Str, val: Str, conds: seq<Cond>, rows': seq<Row>)
    requires SchemaOk(sc) && sc.pk >= 0 && RowsOk(sc, t.rows)
    requires ColIdx(sc.cols, col) >= 0 ==> SetWhere(sc, conds, ColIdx(sc.cols, col), Norm(val, 256), t.rows, rows')
    ensures Exec(sc, t, UpdateStmt(col, val, conds)).Some? <==>
            && MaySet(sc, conds, ColIdx(sc.cols, col), Norm(val, 256)) && RowsOk(sc, rows')
            && PksApart(sc, rows') && forall c :: 0 <= c < |sc.cols| && sc.cols[c].kind == UK ==> TextsApart(sc, rows', c)
  {
    var c, v := ColIdx(sc.cols, col), Norm(val, 256);
    if c >= 0 {
      forall i | 0 <= i < |t.rows| ensures Flags(sc, conds, t.rows)[i] == Asked(sc, conds, t.rows[i]) {
        FlagsAre(sc, conds, t.rows, i);
      }
      assert Updated(t.rows, Flags(sc, conds, t.rows), c, v) == rows';
      assert RowsOk(sc, rows');
      IndexableIff(sc, rows');
    }
  }

  // ------------------------------------------------------------ DELETE

  /** Increasing positions of the rows that stay. */
  ghost predicate StaysAt(sc: Schema, conds: seq<Cond>, rows: seq<Row>, rows': seq<Row>, at: seq<nat>)
    requires Sized(sc) && RowsOk(sc, rows)
  {
    && |at| == |rows'| && (forall k :: 0 <= k < |at| ==> at[k] < |rows| && rows'[k] == rows[at[k]])
    && (forall k, l :: 0 <= k < l < |at| ==> at[k] < at[l])
    && (forall i :: 0 <= i < |rows| ==> (i in at <==> !Asked(sc, conds, rows[i])))
  }

  /** The positions among the first n that are not flagged. */
  ghost function Unflagged(hit: seq<bool>, n: nat): (at: seq<nat>)
    requires n <= |hit|
    ensures forall k :: 0 <= k < |at| ==> at[k] < n && !hit[at[k]]
    ensures forall k, l :: 0 <= k < l < |at| ==> at[k] < at[l]
    ensures forall i :: 0 <= i < n && !hit[i] ==> i in at
  {
    if n == 0 then [] else Unflagged(hit, n - 1) + if hit[n - 1] then [] else [n - 1]
  }

  lemma {:induction false} KeptAt<T>(xs: seq<T>, hit: seq<bool>, n: nat)
    requires n <= |xs| == |hit|
    ensures var at := Unflagged(hit, n); |at| == |Kept(xs, hit, n)| && forall k :: 0 <= k < |at| ==> Kept(xs, hit, n)[k] == xs[at[k]]
  {
    if n > 0 {
      KeptAt(xs, hit, n - 1);
    }
  }

  /** A DELETE succeeds exactly when it has conditions, and leaves exactly the rows they do
      not ask for, in their order. */
  lemma DeletedRows(sc: Schema, t: Tab, conds: seq<Cond>) returns (at: seq<nat>)
    requires SchemaOk(sc) && sc.pk >= 0 && RowsOk(sc, t.rows)
    ensures Exec(sc, t, DeleteStmt(conds)).Some? <==> |conds| > 0
    ensures |conds| > 0 ==> var t' := Exec(sc, t, DeleteStmt(conds)).value; t'.next == t.next && StaysAt(sc, conds, t.rows, t'.rows, at)
  {
    var hit := Flags(sc, conds, t.rows);
    at := Unflagged(hit, |t.rows|);
    KeptAt(t.rows, hit, |t.rows|);
    forall i | 0 <= i < |t.rows| ensures hit[i] == Asked(sc, conds, t.rows[i]) {
      FlagsAre(sc, conds, t.rows, i);
    }
  }
}
