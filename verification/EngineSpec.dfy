/** What a table holds and what its statements mean, without the indexes
    (src/db/dbapi.c). */
module EngineSpec {
  import opened Basics
  import opened Text

  const MAX_COLS: nat := 15
  const MAX_UKS: nat := 5

  datatype Kind = Normal | PK | UK | NN

  datatype Col = Col(name: Str, kind: Kind)

  type Row = seq<Str>

  /** WhereCondition: a comparison, a range, or one with no type. */
  datatype Cond =
    | Eq(col: Str, val: Str)
    | Between(col: Str, val: Str, end: Str)
    | Untyped(col: Str)

  /** The columns, the PK column (-1 for none), the UK columns, and RECORD_SIZE, the
      size of the buffers values are normalised in (1024 in src/legacy/types.h). */
  datatype Schema = Schema(cols: seq<Col>, pk: int, uks: seq<nat>, rec: nat)

  predicate Sized(sc: Schema) {
    sc.rec > 0 && -1 <= sc.pk < |sc.cols|
  }

  predicate SchemaOk(sc: Schema) {
    && Sized(sc) && sc.rec >= 256 && |sc.uks| <= MAX_UKS
    && (sc.pk >= 0 ==> sc.cols[sc.pk].kind == PK)
    && (forall j :: 0 <= j < |sc.uks| ==> sc.uks[j] < |sc.cols| && sc.cols[sc.uks[j]].kind == UK)
    && (forall c :: 0 <= c < |sc.cols| && sc.cols[c].kind == UK ==> c in sc.uks)
    && (forall i, j :: 0 <= i < j < |sc.uks| ==> sc.uks[i] != sc.uks[j])
  }

  predicate RowsOk(sc: Schema, rows: seq<Row>) {
    forall i :: 0 <= i < |rows| ==> |rows[i]| == |sc.cols|
  }

  // ------------------------------------------------------------ conditions

  /** col_idx: the first column of that name, -1 if none. */
  function ColIdx(cols: seq<Col>, name: Str): (i: int)
    ensures -1 <= i < |cols|
    ensures i >= 0 ==> cols[i].name == name && forall j :: 0 <= j < i ==> cols[j].name != name
    ensures i == -1 ==> forall j :: 0 <= j < |cols| ==> cols[j].name != name
  {
    if cols == [] then -1
    else if cols[0].name == name then 0
    else
      var i := ColIdx(cols[1..], name);
      assert forall j :: 1 <= j < |cols| ==> cols[j] == cols[1..][j - 1];
      if i < 0 then -1 else i + 1
  }

  predicate Same(a: Str, b: Str, rec: nat)
    requires rec > 0
  {
    Norm(a, rec) == Norm(b, rec)
  }

  predicate InSpan(v: Str, lo: Str, hi: Str, rec: nat)
    requires rec > 0
  {
    AtMost(Norm(lo, rec), Norm(v, rec)) && AtMost(Norm(v, rec), Norm(hi, rec))
  }

  predicate NumSpan(v: Str, lo: Str, hi: Str) {
    && ParseL(v).Some? && ParseL(lo).Some? && ParseL(hi).Some?
    && ParseL(lo).value <= ParseL(v).value <= ParseL(hi).value
  }

  predicate Holds(sc: Schema, c: Cond, row: Row)
    requires Sized(sc) && |row| == |sc.cols|
  {
    var i := ColIdx(sc.cols, c.col);
    i >= 0 && match c
              case Eq(_, v) => Same(row[i], v, sc.rec)
              case Between(_, lo, hi) => if i == sc.pk then NumSpan(row[i], lo, hi) else InSpan(row[i], lo, hi, sc.rec)
              case Untyped(_) => false
  }

  /** What row_match decides: the row meets every condition. */
  predicate Matches(sc: Schema, conds: seq<Cond>, row: Row)
    requires Sized(sc) && |row| == |sc.cols|
  {
    forall i :: 0 <= i < |conds| ==> Holds(sc, conds[i], row)
  }

  // ------------------------------------------------------------ keys and indexes

  /** The PK tree's key of a row. */
  function PkKey(sc: Schema, row: Row): Option<int>
    requires 0 <= sc.pk < |row|
  {
    ParseL(row[sc.pk])
  }

  /** The key of a text in a UK tree: none for the empty text. */
  function TextKey(t: Str, rec: nat): (k: Option<int>)
    requires rec > 0
    ensures k.Some? ==> 0 <= k.value < Pow(rec)
  {
    var n := Norm(t, rec);
    if n == [] then None else Some(Rank(n, rec))
  }

  /** The keys of a list of rows. */
  function KeysBy(f: Row -> Option<int>, rows: seq<Row>): (ks: seq<Option<int>>)
    ensures |ks| == |rows| && forall i :: 0 <= i < |rows| ==> ks[i] == f(rows[i])
  {
    seq(|rows|, i requires 0 <= i < |rows| => f(rows[i]))
  }

  /** The PK key as a function of the row. */
  ghost function PkFn(sc: Schema): (f: Row -> Option<int>)
    ensures forall row {:trigger PkKey(sc, row)} :: 0 <= sc.pk < |row| ==> f(row) == PkKey(sc, row)
  {
    var g := (row: Row) => if 0 <= sc.pk < |row| then PkKey(sc, row) else None;
    assert forall row {:trigger PkKey(sc, row)} :: 0 <= sc.pk < |row| ==> g(row) == PkKey(sc, row);
    var f: Row -> Option<int> :| forall row {:trigger PkKey(sc, row)} :: 0 <= sc.pk < |row| ==> f(row) == PkKey(sc, row);
    f
  }

  /** The key of a UK column as a function of the row. */
  ghost function UkFn(sc: Schema, c: nat): (f: Row -> Option<int>)
    requires sc.rec > 0
    ensures forall row {:trigger TextKey(row[c], sc.rec)} :: c < |row| ==> f(row) == TextKey(row[c], sc.rec)
  {
    var g := (row: Row) => if c < |row| then TextKey(row[c], sc.rec) else None;
    assert forall row {:trigger TextKey(row[c], sc.rec)} :: c < |row| ==> g(row) == TextKey(row[c], sc.rec);
    var f: Row -> Option<int> :| forall row {:trigger TextKey(row[c], sc.rec)} :: c < |row| ==> f(row) == TextKey(row[c], sc.rec);
    f
  }

  ghost function PkKeys(sc: Schema, rows: seq<Row>): (ks: seq<Option<int>>)
    requires Sized(sc) && sc.pk >= 0 && RowsOk(sc, rows)
    ensures |ks| == |rows|
  {
    KeysBy(PkFn(sc), rows)
  }

  ghost function UkKeys(sc: Schema, c: nat, rows: seq<Row>): (ks: seq<Option<int>>)
    requires Sized(sc) && RowsOk(sc, rows) && c < |sc.cols|
    ensures |ks| == |rows|
  {
    KeysBy(UkFn(sc, c), rows)
  }

  /** An index: each key leads to the one row that has it. */
  ghost predicate Indexed(ks: seq<Option<int>>, m: map<int, int>) {
    && (forall i :: 0 <= i < |ks| && ks[i].Some? ==> ks[i].value in m && m[ks[i].value] == i)
    && (forall k :: k in m ==> 0 <= m[k] < |ks| && ks[m[k]] == Some(k))
  }

  ghost predicate Unique(ks: seq<Option<int>>) {
    forall i, j :: 0 <= i < j < |ks| && ks[i].Some? ==> ks[i] != ks[j]
  }

  ghost predicate AllKeyed(ks: seq<Option<int>>) {
    forall i :: 0 <= i < |ks| ==> ks[i].Some?
  }

  lemma IndexedUnique(ks: seq<Option<int>>, m: map<int, int>)
    requires Indexed(ks, m)
    ensures Unique(ks)
  {
  }

  lemma IndexedPush(ks: seq<Option<int>>, m: map<int, int>, k: Option<int>)
    requires Indexed(ks, m)
    ensures k.None? ==> Indexed(ks + [k], m)
    ensures k.Some? && k.value !in m ==> Indexed(ks + [k], m[k.value := |ks|])
    ensures k.Some? && k.value in m ==> !Unique(ks + [k])
  {
    if k.Some? && k.value in m {
      var x := k.value;
      assert x in m;
      var i := m[x];
      assert (ks + [k])[i] == k && (ks + [k])[|ks|] == k;
    }
  }

  lemma PrefixPush(ks: seq<Option<int>>, n: nat)
    requires n < |ks|
    ensures ks[..n + 1] == ks[..n] + [ks[n]]
  {
  }

  lemma UniquePrefix(ks: seq<Option<int>>, n: nat)
    requires n <= |ks| && !Unique(ks[..n])
    ensures !Unique(ks)
  {
    var i, j :| 0 <= i < j < n && ks[..n][i].Some? && ks[..n][i] == ks[..n][j];
    assert ks[i] == ks[j];
  }

  /** The PK index over the first n rows. */
  ghost predicate PkHolds(sc: Schema, rows: seq<Row>, n: nat, m: map<int, int>)
    requires Sized(sc) && RowsOk(sc, rows) && n <= |rows|
  {
    sc.pk >= 0 ==> AllKeyed(PkKeys(sc, rows)[..n]) && Indexed(PkKeys(sc, rows)[..n], m)
  }

  /** The k-th UK index over the first n rows. */
  ghost predicate UkHolds(sc: Schema, rows: seq<Row>, k: nat, n: nat, m: map<int, int>)
    requires SchemaOk(sc) && RowsOk(sc, rows) && n <= |rows| && k < |sc.uks|
  {
    Indexed(UkKeys(sc, sc.uks[k], rows)[..n], m)
  }

  /** The UK indexes over the first n rows, the first j of them one row ahead. */
  ghost predicate UksHold(sc: Schema, rows: seq<Row>, ms: seq<map<int, int>>, n: nat, j: nat)
    requires SchemaOk(sc) && RowsOk(sc, rows) && n <= |rows|
  {
    && |ms| == |sc.uks| && j <= |ms| && (j > 0 ==> n < |rows|)
    && (forall k :: 0 <= k < j ==> UkHolds(sc, rows, k, n + 1, ms[k]))
    && (forall k :: j <= k < |ms| ==> UkHolds(sc, rows, k, n, ms[k]))
  }

  lemma UksStep(sc: Schema, rows: seq<Row>, ms: seq<map<int, int>>, n: nat, j: nat, m: map<int, int>)
    requires SchemaOk(sc) && RowsOk(sc, rows) && n < |rows| && j < |ms| && UksHold(sc, rows, ms, n, j) && UkHolds(sc, rows, j, n + 1, m)
    ensures UksHold(sc, rows, ms[j := m], n, j + 1) == true
  {
    var ms' := ms[j := m];
    forall k | 0 <= k < j + 1 ensures UkHolds(sc, rows, k, n + 1, ms'[k]) {
      if k < j { assert ms'[k] == ms[k]; }
    }
    forall k | j + 1 <= k < |ms'| ensures UkHolds(sc, rows, k, n, ms'[k]) {
      assert ms'[k] == ms[k];
    }
  }

  lemma UksDone(sc: Schema, rows: seq<Row>, ms: seq<map<int, int>>, n: nat)
    requires SchemaOk(sc) && RowsOk(sc, rows) && n < |rows| && UksHold(sc, rows, ms, n, |ms|)
    ensures UksHold(sc, rows, ms, n + 1, 0) == true
  {
    forall k | 0 <= k < |ms| ensures UkHolds(sc, rows, k, n + 1, ms[k]) {
    }
  }

  lemma UksEmpty(sc: Schema, rows: seq<Row>, ms: seq<map<int, int>>)
    requires SchemaOk(sc) && RowsOk(sc, rows) && |ms| == |sc.uks| && forall k :: 0 <= k < |ms| ==> ms[k] == map[]
    ensures UksHold(sc, rows, ms, 0, 0) == true
  {
    forall k | 0 <= k < |ms| ensures UkHolds(sc, rows, k, 0, ms[k]) {
      assert ms[k] == map[];
    }
  }

  ghost predicate UksUnique(sc: Schema, rows: seq<Row>)
    requires SchemaOk(sc) && RowsOk(sc, rows)
  {
    forall j :: 0 <= j < |sc.uks| ==> Unique(UkKeys(sc, sc.uks[j], rows))
  }

  /** The constraints of a table: PKs are numbers, one row each, and so are UKs that are
      not empty. */
  ghost predicate Indexable(sc: Schema, rows: seq<Row>)
    requires SchemaOk(sc) && RowsOk(sc, rows)
  {
    (sc.pk >= 0 ==> AllKeyed(PkKeys(sc, rows)) && Unique(PkKeys(sc, rows))) && UksUnique(sc, rows)
  }

  /** Columns marked NN are filled. */
  ghost predicate NotNull(sc: Schema, rows: seq<Row>)
    requires RowsOk(sc, rows)
  {
    forall i, c :: 0 <= i < |rows| && 0 <= c < |sc.cols| && sc.cols[c].kind == NN ==> rows[i][c] != []
  }

  /** Every PK in use is below the next automatic one. */
  ghost predicate IdsBelow(sc: Schema, rows: seq<Row>, next: int)
    requires Sized(sc) && RowsOk(sc, rows)
  {
    sc.pk >= 0 ==> forall i :: 0 <= i < |rows| && PkKey(sc, rows[i]).Some? ==> PkKey(sc, rows[i]).value < next
  }

  lemma AllKeyedPush(ks: seq<Option<int>>, i: nat)
    requires i < |ks| && AllKeyed(ks[..i]) && ks[i].Some?
    ensures AllKeyed(ks[..i + 1]) == true
  {
    forall j | 0 <= j < i ensures ks[j].Some? {
      assert ks[..i][j] == ks[j];
    }
  }

  lemma PkKeyAt(sc: Schema, rows: seq<Row>, i: nat)
    requires Sized(sc) && sc.pk >= 0 && RowsOk(sc, rows) && i < |rows|
    ensures PkKeys(sc, rows)[i] == PkKey(sc, rows[i])
  {
  }

  lemma UkKeyAt(sc: Schema, rows: seq<Row>, c: nat, i: nat)
    requires Sized(sc) && RowsOk(sc, rows) && i < |rows| && c < |sc.cols|
    ensures UkKeys(sc, c, rows)[i] == TextKey(rows[i][c], sc.rec)
  {
  }

  /** The PK index after one more row was added ... */
  lemma PkGrown(sc: Schema, rows: seq<Row>, i: nat, m: map<int, int>, m': map<int, int>)
    requires Sized(sc) && RowsOk(sc, rows) && i < |rows| && sc.pk >= 0 && PkHolds(sc, rows, i, m) && PkKeys(sc, rows)[i].Some?
    requires Indexed(PkKeys(sc, rows)[..i + 1], m') == true
    ensures PkHolds(sc, rows, i + 1, m') == true
  {
    AllKeyedPush(PkKeys(sc, rows), i);
  }

  /** ... or refused. */
  lemma PkRefused(sc: Schema, rows: seq<Row>, i: nat)
    requires SchemaOk(sc) && RowsOk(sc, rows) && i < |rows| && sc.pk >= 0 && !Unique(PkKeys(sc, rows)[..i + 1])
    ensures Indexable(sc, rows) == false
  {
    UniquePrefix(PkKeys(sc, rows), i + 1);
  }

  lemma UkGrown(sc: Schema, rows: seq<Row>, j: nat, i: nat, m': map<int, int>, ok: bool)
    requires SchemaOk(sc) && RowsOk(sc, rows) && i < |rows| && j < |sc.uks|
    requires ok ==> Indexed(UkKeys(sc, sc.uks[j], rows)[..i + 1], m') == true
    requires !ok ==> !Unique(UkKeys(sc, sc.uks[j], rows)[..i + 1])
    ensures ok ==> UkHolds(sc, rows, j, i + 1, m') == true
    ensures !ok ==> UksUnique(sc, rows) == false
  {
    if !ok {
      UniquePrefix(UkKeys(sc, sc.uks[j], rows), i + 1);
    }
  }

  lemma NotKeyed(sc: Schema, rows: seq<Row>, i: nat)
    requires SchemaOk(sc) && RowsOk(sc, rows) && i < |rows| && sc.pk >= 0 && PkKeys(sc, rows)[i].None?
    ensures Indexable(sc, rows) == false
  {
  }

  lemma HoldsIndexable(sc: Schema, rows: seq<Row>, m: map<int, int>, ms: seq<map<int, int>>)
    requires SchemaOk(sc) && RowsOk(sc, rows) && PkHolds(sc, rows, |rows|, m) && UksHold(sc, rows, ms, |rows|, 0)
    ensures Indexable(sc, rows) == true
  {
    if sc.pk >= 0 {
      var ks := PkKeys(sc, rows);
      assert ks[..|rows|] == ks;
      IndexedUnique(ks, m);
    }
    forall j | 0 <= j < |sc.uks| ensures Unique(UkKeys(sc, sc.uks[j], rows)) {
      var ks := UkKeys(sc, sc.uks[j], rows);
      assert UkHolds(sc, rows, j, |rows|, ms[j]) && ks[..|rows|] == ks;
      IndexedUnique(ks, ms[j]);
    }
  }
}
