/** What tab_load hands to the engine (src/db/dbapi.c:735-841): a schema, rows and a next id
    that fit together. */
module LoadedTables {
  import opened Basics
  import opened Text
  import opened EngineSpec
  import opened WriteSpec
  import opened Csv

  lemma {:induction false} UksOfAre(cols: seq<Col>, n: nat)
    requires n <= |cols|
    ensures forall j :: 0 <= j < |UksOf(cols, n)| ==> UksOf(cols, n)[j] < n && cols[UksOf(cols, n)[j]].kind == UK
    ensures forall c :: 0 <= c < n && cols[c].kind == UK ==> c in UksOf(cols, n)
    ensures forall i, j :: 0 <= i < j < |UksOf(cols, n)| ==> UksOf(cols, n)[i] < UksOf(cols, n)[j]
  {
    if n > 0 {
      UksOfAre(cols, n - 1);
    }
  }

  lemma {:induction false} PkOfIs(cols: seq<Col>, n: nat)
    requires n <= |cols|
    ensures PkOf(cols, n) >= 0 ==> cols[PkOf(cols, n)].kind == PK
    ensures forall c :: PkOf(cols, n) < c < n ==> cols[c].kind != PK
  {
    if n > 0 {
      PkOfIs(cols, n - 1);
    }
  }

  /** A header whose UK columns fit is a schema: the PK column is the last one tagged PK, and
      the UK columns are those tagged UK, in order. */
  lemma LoadedSchema(line: Str, rec: nat)
    requires rec >= 256 && UksFit(LoadHdr(line, rec).cols, |LoadHdr(line, rec).cols|)
    ensures SchemaOk(LoadHdr(line, rec)) && FromCols(LoadHdr(line, rec)) && 0 < |LoadHdr(line, rec).cols| <= MAX_COLS
  {
    var cols := LoadHdr(line, rec).cols;
    UksOfAre(cols, |cols|);
    PkOfIs(cols, |cols|);
    UksFitIff(cols, |cols|);
  }

  /** Every loaded row has a cell for each column, and a number as its PK. */
  lemma {:induction false} LoadedRows(sc: Schema, text: Str)
    requires Sized(sc) && sc.rec > 1 && LoadRows(sc, text).Some?
    ensures var rows := LoadRows(sc, text).value;
            RowsOk(sc, rows) && (sc.pk >= 0 ==> forall i :: 0 <= i < |rows| ==> ParseL(rows[i][sc.pk]).Some?)
    decreases |text|
  {
    if text != [] {
      LoadedRows(sc, text[LineLen(text, sc.rec)..]);
    }
  }

  /** The ids of rows whose PKs are numbers. */
  function Ids(sc: Schema, rows: seq<Row>): (ids: seq<int>)
    requires Sized(sc) && sc.pk >= 0 && RowsOk(sc, rows) && forall i :: 0 <= i < |rows| ==> ParseL(rows[i][sc.pk]).Some?
    ensures |ids| == |rows| && forall i :: 0 <= i < |rows| ==> Some(ids[i]) == ParseL(rows[i][sc.pk])
  {
    seq(|rows|, i requires 0 <= i < |rows| => ParseL(rows[i][sc.pk]).value)
  }

  /** Every id is below next, which is 1 or follows one of them. */
  ghost predicate NextAfter(ids: seq<int>, next: int) {
    next >= 1 && (forall i :: 0 <= i < |ids| ==> ids[i] < next) && (next > 1 ==> next - 1 in ids)
  }

  lemma NextAfterPush(ids: seq<int>, next: int, key: int)
    requires NextAfter(ids, next)
    ensures NextAfter(ids + [key], if key >= next then key + 1 else next) == true
  {
    assert (ids + [key])[|ids|] == key;
  }

  /** The next id as load_row counts it. */
  method NextId(ids: seq<int>) returns (next: int)
    ensures NextAfter(ids, next) == true
  {
    next := 1;
    var n := 0;
    while n < |ids|
      invariant 0 <= n <= |ids| && NextAfter(ids[..n], next) == true
    {
      NextAfterPush(ids[..n], next, ids[n]);
      assert ids[..n + 1] == ids[..n] + [ids[n]];
      if ids[n] >= next {
        next := ids[n] + 1;
      }
      n := n + 1;
    }
    assert ids[..n] == ids;
  }

  /** So a loaded table whose keys can be indexed keeps its constraints, but for NN columns,
      which loading does not look at: it keeps those exactly when they are filled. */
  lemma LoadedConstraints(sc: Schema, rows: seq<Row>, next: int)
    requires SchemaOk(sc) && sc.pk >= 0 && RowsOk(sc, rows) && Indexable(sc, rows) == true
    requires (forall i :: 0 <= i < |rows| ==> ParseL(rows[i][sc.pk]).Some?) && NextAfter(Ids(sc, rows), next)
    ensures Constraints(sc, Tab(rows, next)) <==> NotNull(sc, rows)
  {
    var ids := Ids(sc, rows);
    forall i | 0 <= i < |rows| ensures PkKey(sc, rows[i]).Some? && PkKey(sc, rows[i]).value < next {
      assert ids[i] < next;
    }
  }
}
