/** What INSERT, UPDATE and DELETE do to a table's rows, and which constraints they keep
    (src/db/dbapi.c:242-262, 607-656, 992-1132). */
module WriteSpec {
  import opened Basics
  import opened Text
  import opened EngineSpec

  const MAX_RECORDS: nat := 2000000

  // ------------------------------------------------------------ INSERT

  /** The fields from the middle of a line on: `cur` is the field read so far, and only
      `left` fields are told apart. */
  function Fields(s: Str, left: nat, cur: Str, quoted: bool): (r: seq<Str>)
    requires left > 0
    ensures 0 < |r| <= left
    decreases |s|
  {
    if s == [] || left == 1 then [cur + s]
    else
      var q := if s[0] == '\'' then !quoted else quoted;
      if s[0] == ',' && !q then [cur] + Fields(s[1..], left - 1, [], q)
      else Fields(s[1..], left, cur + [s[0]], q)
  }

  predicate Without(s: Str, c: char) {
    forall i :: 0 <= i < |s| ==> s[i] != c
  }

  /** A text without quotes or commas. */
  predicate Plain(t: Str) {
    Without(t, '\'') && Without(t, ',')
  }

  lemma {:induction false} PlainScan(t: Str, rest: Str, left: nat, cur: Str)
    requires Plain(t) && left > 1
    ensures Fields(t + rest, left, cur, false) == Fields(rest, left, cur + t, false)
    decreases t
  {
    if t == [] {
      assert t + rest == rest && cur + t == cur;
    } else {
      var s := t + rest;
      assert s[0] == t[0] && s[1..] == t[1..] + rest;
      assert t[0] != '\'' && t[0] != ',';
      assert Plain(t[1..]);
      PlainScan(t[1..], rest, left, cur + [t[0]]);
      assert cur + [t[0]] + t[1..] == cur + t;
    }
  }

  lemma LastField(s: Str, left: nat)
    requires left > 0
    ensures left == 1 ==> Fields(s, left, [], false) == [s]
    ensures Fields([], left, s, false) == [s]
  {
    assert [] + s == s && s + [] == s;
  }

  /** A text without quotes or commas is one field. */
  lemma PlainField(t: Str, left: nat)
    requires Plain(t) && left > 0
    ensures Fields(t, left, [], false) == [t]
  {
    LastField(t, left);
    if left > 1 {
      PlainScan(t, [], left, []);
      assert t + [] == t && [] + t == t;
    }
  }

  /** The loop of split_csv at position i: the fields found, the one being read, and
      whether it is inside quotes. */
  ghost predicate SplitSoFar(buf: Str, i: nat, vals: seq<Str>, cur: Str, quoted: bool)
    requires i <= |buf|
  {
    |vals| < MAX_COLS && vals + Fields(buf[i..], MAX_COLS - |vals|, cur, quoted) == Fields(buf, MAX_COLS, [], false)
  }

  lemma SplitStart(buf: Str)
    ensures SplitSoFar(buf, 0, [], [], false)
  {
    assert buf[0..] == buf;
    assert [] + Fields(buf, MAX_COLS, [], false) == Fields(buf, MAX_COLS, [], false);
  }

  lemma SplitStep(buf: Str, i: nat, vals: seq<Str>, cur: Str, quoted: bool)
    requires i < |buf| && SplitSoFar(buf, i, vals, cur, quoted) && |vals| + 1 < MAX_COLS
    ensures var q := if buf[i] == '\'' then !quoted else quoted;
            if buf[i] == ',' && !q then SplitSoFar(buf, i + 1, vals + [cur], [], q) else SplitSoFar(buf, i + 1, vals, cur + [buf[i]], q)
  {
    var s, left := buf[i..], MAX_COLS - |vals|;
    var q := if buf[i] == '\'' then !quoted else quoted;
    assert s[0] == buf[i] && s[1..] == buf[i + 1..];
    if buf[i] == ',' && !q {
      Assoc(vals, [cur], Fields(s[1..], left - 1, [], q));
    }
  }

  lemma SplitEnd(buf: Str, i: nat, vals: seq<Str>, cur: Str, quoted: bool)
    requires i <= |buf| && SplitSoFar(buf, i, vals, cur, quoted) && (i == |buf| || |vals| + 1 == MAX_COLS)
    ensures vals + [cur + buf[i..]] == Fields(buf, MAX_COLS, [], false)
  {
  }

  /** split_csv: fields end at commas outside quotes. */
  function SplitCsv(s: Str, rec: nat): (r: seq<Str>)
    requires rec > 0
    ensures 0 < |r| <= MAX_COLS
  {
    Fields(Cut(s, rec), MAX_COLS, [], false)
  }

  const Null: Str := ['N', 'U', 'L', 'L']

  /** What row_new makes of the fields: a row with its id, or nothing; either way it may
      have used up ids. */
  datatype NewRow = BadRow(next: int) | Made(row: Row, id: int, next: int)

  predicate AutoId(sc: Schema, vals: seq<Str>)
    requires Sized(sc) && sc.pk >= 0
  {
    |vals| != |sc.cols| || vals[sc.pk] == [] || Same(vals[sc.pk], Null, sc.rec)
  }

  predicate CountOk(sc: Schema, vals: seq<Str>) {
    |vals| == |sc.cols| || (sc.pk == 0 && |vals| == |sc.cols| - 1)
  }

  /** The value of column i of a new row. */
  function CellOf(sc: Schema, vals: seq<Str>, id: int, i: nat): Str
    requires Sized(sc) && sc.pk >= 0 && CountOk(sc, vals) && i < |sc.cols|
  {
    if i == sc.pk && AutoId(sc, vals) then Trim(Show(id))
    else
      var j := if |vals| != |sc.cols| && i > sc.pk then i - 1 else i;
      if j < |vals| then Trim(vals[j]) else []
  }

  ghost function CellsOf(sc: Schema, vals: seq<Str>, id: int): (row: Row)
    requires Sized(sc) && sc.pk >= 0 && CountOk(sc, vals)
    ensures |row| == |sc.cols| && forall i {:trigger CellOf(sc, vals, id, i)} :: 0 <= i < |sc.cols| ==> row[i] == CellOf(sc, vals, id, i)
  {
    var all := seq(|sc.cols|, i requires 0 <= i < |sc.cols| => CellOf(sc, vals, id, i));
    assert forall i {:trigger CellOf(sc, vals, id, i)} :: 0 <= i < |sc.cols| ==> all[i] == CellOf(sc, vals, id, i);
    var row: Row :| |row| == |sc.cols| && forall i {:trigger CellOf(sc, vals, id, i)} :: 0 <= i < |sc.cols| ==> row[i] == CellOf(sc, vals, id, i);
    row
  }

  predicate Filled(sc: Schema, row: Row)
    requires |row| == |sc.cols|
  {
    forall c :: 0 <= c < |row| && sc.cols[c].kind == NN ==> row[c] != []
  }

  /** row_new, for a table with a PK. */
  ghost function RowNew(sc: Schema, vals: seq<Str>, next: int): (n: NewRow)
    requires Sized(sc) && sc.pk >= 0
    ensures n.Made? ==> |n.row| == |sc.cols|
  {
    if !CountOk(sc, vals) then BadRow(next)
    else if !AutoId(sc, vals) && ParseL(vals[sc.pk]).None? then BadRow(next)
    else
      var id := if AutoId(sc, vals) then next else ParseL(vals[sc.pk]).value;
      var next' := if id >= next then id + 1 else next;
      var row := CellsOf(sc, vals, id);
      if Filled(sc, row) then Made(row, id, next') else BadRow(next')
  }

  /** The id field reads as a number the same before and after it is trimmed; an id that
      is assigned automatically always does. */
  predicate IdReads(sc: Schema, vals: seq<Str>)
    requires Sized(sc) && sc.pk >= 0 && CountOk(sc, vals)
  {
    AutoId(sc, vals) || ParseL(Trim(vals[sc.pk])) == ParseL(vals[sc.pk])
  }

  /** A new row is indexed under the number its PK column holds exactly when its id field
      reads the same before and after trimming. */
  lemma NewRowKeyIff(sc: Schema, vals: seq<Str>, next: int)
    requires Sized(sc) && sc.pk >= 0 && RowNew(sc, vals, next).Made? && LONG_MIN <= next < LONG_END
    ensures PkKey(sc, RowNew(sc, vals, next).row) == Some(RowNew(sc, vals, next).id) <==> IdReads(sc, vals)
  {
    var n := RowNew(sc, vals, next);
    assert n.row[sc.pk] == CellOf(sc, vals, n.id, sc.pk);
    if AutoId(sc, vals) {
      ShowReads(next);
    }
  }

  /** A field of at most 255 bytes does ... */
  lemma ShortIdReads(sc: Schema, vals: seq<Str>, next: int)
    requires Sized(sc) && sc.pk >= 0 && RowNew(sc, vals, next).Made? && (AutoId(sc, vals) || |vals[sc.pk]| <= 255)
    ensures IdReads(sc, vals)
  {
    if !AutoId(sc, vals) {
      TrimKeepsNumber(vals[sc.pk]);
    }
  }

  /** A table of ids and nothing else. */
  predicate OnlyId(sc: Schema) {
    sc.cols == [Col("id", PK)] && sc.pk == 0 && sc.uks == []
  }

  /** 254 spaces and the number 12. */
  predicate IsLongId(f: Str) {
    |f| == 256 && f[|f| - 2] == '1' && f[|f| - 1] == '2' && forall i :: 0 <= i < |f| - 2 ==> f[i] == ' '
  }

  /** ... but an INSERT of a longer one can be accepted and indexed under another number
      than the row holds: here 1, the first 255 of 256 bytes, for a row that holds 12. */
  lemma LongIdInsert(sc: Schema, f: Str, next: int)
    requires SchemaOk(sc) && OnlyId(sc) && sc.rec > 256 && LONG_MIN <= next < LONG_END && IsLongId(f)
    ensures var n := RowNew(sc, SplitCsv(f, sc.rec), next); Accepts(sc, [], n) && n.id == 1 && PkKey(sc, n.row) == Some(12)
  {
    LongIdFields(sc, f);
    LongIdRow(sc, f, [], next);
  }

  lemma LongIdFields(sc: Schema, f: Str)
    requires sc.rec > 256 && IsLongId(f)
    ensures SplitCsv(f, sc.rec) == [f] && !Same(f, Null, sc.rec) && ParseL(f) == Some(1) && ParseL(Trim(f)) == Some(12)
  {
    LongField(f);
    assert Cut(f, sc.rec) == f;
    forall i | 0 <= i < |f| ensures f[i] != '\'' && f[i] != ',' {
    }
    PlainField(f, MAX_COLS);
    assert Norm(f, sc.rec) == ['1', '2'];
    assert Norm(Null, sc.rec) == Trim(Null);
    NullTrims();
  }

  lemma NullTrims()
    ensures Trim(Null) == Null
  {
    assert SkipSpace(Null) == Null && DropSpace(Null) == Null;
  }

  lemma LongIdRow(sc: Schema, f: Str, rows: seq<Row>, next: int)
    requires SchemaOk(sc) && OnlyId(sc) && f != [] && !Same(f, Null, sc.rec)
    requires ParseL(f) == Some(1) && ParseL(Trim(f)) == Some(12) && RowsOk(sc, rows) && Some(1) !in PkKeys(sc, rows) && |rows| < MAX_RECORDS
    ensures var n := RowNew(sc, [f], next); Accepts(sc, rows, n) && n.id == 1 && n.next == (if next <= 1 then 2 else next) && PkKey(sc, n.row) == Some(12)
  {
    var vals := [f];
    assert !AutoId(sc, vals) && CountOk(sc, vals);
    var row := CellsOf(sc, vals, 1);
    assert row[0] == CellOf(sc, vals, 1, 0) == Trim(f);
    assert Filled(sc, row);
    assert RowNew(sc, vals, next) == Made(row, 1, if 1 >= next then 2 else next);
  }

  /** On a table whose ids are below the next one, an automatic id is new. */
  lemma AutoIdFresh(sc: Schema, rows: seq<Row>, vals: seq<Str>, next: int)
    requires Sized(sc) && sc.pk >= 0 && RowsOk(sc, rows) && IdsBelow(sc, rows, next) && RowNew(sc, vals, next).Made? && AutoId(sc, vals)
    ensures Some(RowNew(sc, vals, next).id) !in PkKeys(sc, rows)
  {
    forall i | 0 <= i < |rows| ensures PkKeys(sc, rows)[i] != Some(next) {
      PkKeyAt(sc, rows, i);
    }
  }

  // ------------------------------------------------------------ keys of changed tables

  lemma UniquePush(ks: seq<Option<int>>, k: Option<int>)
    ensures Unique(ks + [k]) <==> Unique(ks) && (k.Some? ==> k !in ks)
  {
    var ks' := ks + [k];
    if Unique(ks') {
      forall i, j | 0 <= i < j < |ks| && ks[i].Some? ensures ks[i] != ks[j] {
        assert ks'[i] == ks[i] && ks'[j] == ks[j];
      }
    }
    if k.Some? && k in ks {
      var i :| 0 <= i < |ks| && ks[i] == k;
      assert ks'[i] == k && ks'[|ks|] == k;
    }
  }

  lemma PkKeysPush(sc: Schema, rows: seq<Row>, row: Row)
    requires Sized(sc) && sc.pk >= 0 && RowsOk(sc, rows) && |row| == |sc.cols|
    ensures RowsOk(sc, rows + [row]) && PkKeys(sc, rows + [row]) == PkKeys(sc, rows) + [PkKey(sc, row)]
  {
  }

  lemma KeysPush(sc: Schema, rows: seq<Row>, row: Row)
    requires Sized(sc) && RowsOk(sc, rows) && |row| == |sc.cols|
    ensures RowsOk(sc, rows + [row])
    ensures sc.pk >= 0 ==> PkKeys(sc, rows + [row]) == PkKeys(sc, rows) + [PkKey(sc, row)]
    ensures forall c :: 0 <= c < |sc.cols| ==> UkKeys(sc, c, rows + [row]) == UkKeys(sc, c, rows) + [TextKey(row[c], sc.rec)]
  {
  }

  /** No row has the text's key in column c. */
  ghost predicate TextFree(sc: Schema, rows: seq<Row>, c: nat, v: Str, skip: int)
    requires Sized(sc) && RowsOk(sc, rows) && c < |sc.cols|
  {
    TextKey(v, sc.rec).Some? ==> forall r :: 0 <= r < |rows| && r != skip ==> TextKey(rows[r][c], sc.rec) != TextKey(v, sc.rec)
  }

  /** The first n UK texts of a new row are free. */
  ghost predicate TextsFree(sc: Schema, rows: seq<Row>, row: Row, n: nat)
    requires SchemaOk(sc) && RowsOk(sc, rows) && |row| == |sc.cols| && n <= |sc.uks|
  {
    forall j :: 0 <= j < n ==> TextFree(sc, rows, sc.uks[j], row[sc.uks[j]], -1)
  }

  lemma TextsNext(sc: Schema, rows: seq<Row>, row: Row, n: nat)
    requires SchemaOk(sc) && RowsOk(sc, rows) && |row| == |sc.cols| && n < |sc.uks|
    ensures TextsFree(sc, rows, row, n + 1) == (TextsFree(sc, rows, row, n) && TextFree(sc, rows, sc.uks[n], row[sc.uks[n]], -1))
    ensures TextsFree(sc, rows, row, |sc.uks|) ==> TextFree(sc, rows, sc.uks[n], row[sc.uks[n]], -1)
  {
  }

  /** Whether an INSERT is accepted: there is room, the fields make a row, and its keys
      are free. */
  ghost predicate Accepts(sc: Schema, rows: seq<Row>, n: NewRow)
    requires SchemaOk(sc) && sc.pk >= 0 && RowsOk(sc, rows) && (n.Made? ==> |n.row| == |sc.cols|)
  {
    && |rows| < MAX_RECORDS && n.Made? && Some(n.id) !in PkKeys(sc, rows)
    && TextsFree(sc, rows, n.row, |sc.uks|)
  }

  /** Whether upd_do gets as far as the UK check. */
  ghost predicate UpdateOk(sc: Schema, conds: seq<Cond>, c: int, v: Str) {
    conds != [] && 0 <= c < |sc.cols| && c != sc.pk && !(sc.cols[c].kind == NN && v == [])
  }

  // ------------------------------------------------------------ UPDATE

  /** Which rows match. */
  ghost function Flags(sc: Schema, conds: seq<Cond>, rows: seq<Row>): (hit: seq<bool>)
    requires Sized(sc) && RowsOk(sc, rows)
    ensures |hit| == |rows| && forall i {:trigger Matches(sc, conds, rows[i])} :: 0 <= i < |rows| ==> hit[i] == Matches(sc, conds, rows[i])
  {
    var all := seq(|rows|, i requires 0 <= i < |rows| => Matches(sc, conds, rows[i]));
    assert forall i {:trigger Matches(sc, conds, rows[i])} :: 0 <= i < |rows| ==> all[i] == Matches(sc, conds, rows[i]);
    var hit: seq<bool> :| |hit| == |rows| && forall i {:trigger Matches(sc, conds, rows[i])} :: 0 <= i < |rows| ==> hit[i] == Matches(sc, conds, rows[i]);
    hit
  }

  /** How many of the first n flags are set. */
  function Hits(hit: seq<bool>, n: nat): (k: nat)
    requires n <= |hit|
  {
    if n == 0 then 0 else Hits(hit, n - 1) + if hit[n - 1] then 1 else 0
  }

  lemma {:induction false} NoHits(hit: seq<bool>, n: nat)
    requires n <= |hit| && Hits(hit, n) == 0
    ensures forall i :: 0 <= i < n ==> !hit[i]
  {
    if n > 0 {
      NoHits(hit, n - 1);
    }
  }

  /** The rows with column c set where flagged. */
  function Updated(rows: seq<Row>, hit: seq<bool>, c: nat, v: Str): (r: seq<Row>)
    requires |hit| == |rows| && forall i :: 0 <= i < |rows| ==> c < |rows[i]|
    ensures |r| == |rows|
    ensures forall i :: 0 <= i < |rows| ==> r[i] == if hit[i] then rows[i][c := v] else rows[i]
  {
    seq(|rows|, i requires 0 <= i < |rows| => if hit[i] then rows[i][c := v] else rows[i])
  }

  lemma NoUpdate(rows: seq<Row>, hit: seq<bool>, c: nat, v: Str)
    requires |hit| == |rows| && (forall i :: 0 <= i < |rows| ==> c < |rows[i]|) && Hits(hit, |rows|) == 0
    ensures Updated(rows, hit, c, v) == rows
  {
    NoHits(hit, |rows|);
  }

  /** The pre-check of upd_do: no matching row gets a UK that another row has. */
  ghost predicate NoClash(sc: Schema, rows: seq<Row>, hit: seq<bool>, c: nat, v: Str)
    requires Sized(sc) && RowsOk(sc, rows) && c < |sc.cols| && |hit| == |rows|
  {
    forall i :: 0 <= i < |rows| && hit[i] ==> TextFree(sc, rows, c, v, i)
  }

  lemma UpdatedKeys(sc: Schema, rows: seq<Row>, hit: seq<bool>, c: nat, v: Str)
    requires Sized(sc) && RowsOk(sc, rows) && c < |sc.cols| && |hit| == |rows|
    ensures RowsOk(sc, Updated(rows, hit, c, v))
    ensures forall i :: 0 <= i < |rows| ==> UkKeys(sc, c, Updated(rows, hit, c, v))[i] == if hit[i] then TextKey(v, sc.rec) else UkKeys(sc, c, rows)[i]
  {
  }

  lemma TwoAlike(ks: seq<Option<int>>, i: nat, j: nat)
    requires i < |ks| && j < |ks| && i != j && ks[i].Some? && ks[i] == ks[j]
    ensures !Unique(ks)
  {
  }

  ghost predicate UpdatedTo(was: seq<Row>, hit: seq<bool>, c: nat, v: Str, n: nat, r: seq<Row>)
    requires |hit| == |was| && (forall i :: 0 <= i < |was| ==> c < |was[i]|) && n <= |was|
  {
    |r| == |was| && forall i :: 0 <= i < |was| ==> r[i] == if i < n && hit[i] then was[i][c := v] else was[i]
  }

  lemma UpdatedStep(was: seq<Row>, hit: seq<bool>, c: nat, v: Str, n: nat, r: seq<Row>)
    requires |hit| == |was| && (forall i :: 0 <= i < |was| ==> c < |was[i]|) && n < |was| && UpdatedTo(was, hit, c, v, n, r)
    ensures r[n] == was[n] && UpdatedTo(was, hit, c, v, n + 1, if hit[n] then r[n := was[n][c := v]] else r) == true
  {
  }

  lemma UpdatedAll(was: seq<Row>, hit: seq<bool>, c: nat, v: Str, r: seq<Row>)
    requires |hit| == |was| && (forall i :: 0 <= i < |was| ==> c < |was[i]|) && UpdatedTo(was, hit, c, v, |was|, r)
    ensures r == Updated(was, hit, c, v)
  {
  }

  /** If a matching row would get a UK that another row has, the update breaks the UK. */
  lemma ClashBreaks(sc: Schema, rows: seq<Row>, hit: seq<bool>, c: nat, v: Str)
    requires Sized(sc) && RowsOk(sc, rows) && c < |sc.cols| && |hit| == |rows| && !NoClash(sc, rows, hit, c, v)
    ensures RowsOk(sc, Updated(rows, hit, c, v)) && !Unique(UkKeys(sc, c, Updated(rows, hit, c, v)))
  {
    var i :| 0 <= i < |rows| && hit[i] && !TextFree(sc, rows, c, v, i);
    var r :| 0 <= r < |rows| && r != i && TextKey(rows[r][c], sc.rec) == TextKey(v, sc.rec);
    UpdatedKeys(sc, rows, hit, c, v);
    TwoAlike(UkKeys(sc, c, Updated(rows, hit, c, v)), i, r);
  }

  /** Several matching rows given one new UK value pass the check, and still break the
      UK: only the rebuild of the index finds that. */
  lemma LateClash(sc: Schema, rows: seq<Row>, hit: seq<bool>, c: nat, v: Str, i: nat, j: nat)
    requires Sized(sc) && RowsOk(sc, rows) && c < |sc.cols| && |hit| == |rows| && i < j < |rows| && hit[i] && hit[j]
    requires TextKey(v, sc.rec).Some? && TextFree(sc, rows, c, v, -1)
    ensures NoClash(sc, rows, hit, c, v)
    ensures RowsOk(sc, Updated(rows, hit, c, v)) && !Unique(UkKeys(sc, c, Updated(rows, hit, c, v)))
  {
    UpdatedKeys(sc, rows, hit, c, v);
    TwoAlike(UkKeys(sc, c, Updated(rows, hit, c, v)), i, j);
  }

  /** An update keeps NN columns filled and leaves the PKs alone. */
  lemma UpdateKeeps(sc: Schema, rows: seq<Row>, hit: seq<bool>, c: nat, v: Str, next: int)
    requires Sized(sc) && RowsOk(sc, rows) && |hit| == |rows| && c < |sc.cols| && c != sc.pk && !(sc.cols[c].kind == NN && v == [])
    ensures RowsOk(sc, Updated(rows, hit, c, v))
    ensures NotNull(sc, rows) ==> NotNull(sc, Updated(rows, hit, c, v))
    ensures IdsBelow(sc, rows, next) ==> IdsBelow(sc, Updated(rows, hit, c, v), next)
    ensures sc.pk >= 0 ==> PkKeys(sc, Updated(rows, hit, c, v)) == PkKeys(sc, rows)
  {
    if sc.pk >= 0 {
      forall i | 0 <= i < |rows| ensures PkKeys(sc, Updated(rows, hit, c, v))[i] == PkKeys(sc, rows)[i] {
        PkKeyAt(sc, rows, i);
        PkKeyAt(sc, Updated(rows, hit, c, v), i);
      }
    }
  }

  // ------------------------------------------------------------ DELETE

  /** Those of the first n items that are not flagged, in order. */
  function Kept<T>(xs: seq<T>, hit: seq<bool>, n: nat): (r: seq<T>)
    requires n <= |xs| == |hit|
    ensures |r| <= n
  {
    if n == 0 then [] else Kept(xs, hit, n - 1) + if hit[n - 1] then [] else [xs[n - 1]]
  }

  /** Each item that stays is one of the first n, and is not flagged. */
  lemma {:induction false} KeptFrom<T>(xs: seq<T>, hit: seq<bool>, n: nat, k: nat) returns (i: nat)
    requires n <= |xs| == |hit| && k < |Kept(xs, hit, n)|
    ensures i < n && xs[i] == Kept(xs, hit, n)[k] && !hit[i]
  {
    if k < |Kept(xs, hit, n - 1)| {
      i := KeptFrom(xs, hit, n - 1, k);
    } else {
      i := n - 1;
    }
  }

  /** Each item that is not flagged stays, and flagged ones go: the counts add up. */
  lemma {:induction false} KeptCount<T>(xs: seq<T>, hit: seq<bool>, n: nat)
    requires n <= |xs| == |hit|
    ensures |Kept(xs, hit, n)| + Hits(hit, n) == n
    ensures forall i :: 0 <= i < n && !hit[i] ==> xs[i] in Kept(xs, hit, n)
  {
    if n > 0 {
      KeptCount(xs, hit, n - 1);
    }
  }

  /** Keys that are unique stay unique when some go. */
  lemma {:induction false} KeptUnique(ks: seq<Option<int>>, hit: seq<bool>, n: nat)
    requires n <= |ks| == |hit| && Unique(ks)
    ensures Unique(Kept(ks, hit, n)) == true
  {
    if n > 0 {
      KeptUnique(ks, hit, n - 1);
      if !hit[n - 1] && ks[n - 1].Some? {
        var kept := Kept(ks, hit, n - 1);
        forall j | 0 <= j < |kept| ensures kept[j] != ks[n - 1] {
          var i := KeptFrom(ks, hit, n - 1, j);
        }
      }
      UniquePush(Kept(ks, hit, n - 1), ks[n - 1]);
    }
  }

  lemma KeptKeyed(ks: seq<Option<int>>, hit: seq<bool>)
    requires |ks| == |hit| && AllKeyed(ks)
    ensures AllKeyed(Kept(ks, hit, |ks|)) == true
  {
    var kept := Kept(ks, hit, |ks|);
    forall j | 0 <= j < |kept| ensures kept[j].Some? {
      var i := KeptFrom(ks, hit, |ks|, j);
    }
  }

  lemma KeptRows(sc: Schema, rows: seq<Row>, hit: seq<bool>, n: nat)
    requires RowsOk(sc, rows) && n <= |rows| == |hit|
    ensures RowsOk(sc, Kept(rows, hit, n))
  {
    var kept := Kept(rows, hit, n);
    forall j | 0 <= j < |kept| ensures |kept[j]| == |sc.cols| {
      var i := KeptFrom(rows, hit, n, j);
    }
  }

  lemma KeysByPush(f: Row -> Option<int>, rows: seq<Row>, row: Row)
    ensures KeysBy(f, rows + [row]) == KeysBy(f, rows) + [f(row)]
  {
  }

  /** The keys of the rows that stay are the keys that stay. */
  lemma {:induction false} KeptKeys(f: Row -> Option<int>, rows: seq<Row>, hit: seq<bool>, n: nat)
    requires n <= |rows| == |hit|
    ensures KeysBy(f, Kept(rows, hit, n)) == Kept(KeysBy(f, rows), hit, n)
  {
    if n > 0 {
      KeptKeys(f, rows, hit, n - 1);
      KeysByPush(f, Kept(rows, hit, n - 1), rows[n - 1]);
    }
  }

  /** Deleting rows keeps every constraint, so the rebuild after it cannot fail. */
  lemma DeleteIndexable(sc: Schema, rows: seq<Row>, hit: seq<bool>)
    requires SchemaOk(sc) && RowsOk(sc, rows) && |hit| == |rows| && Indexable(sc, rows)
    ensures RowsOk(sc, Kept(rows, hit, |rows|)) && Indexable(sc, Kept(rows, hit, |rows|)) == true
  {
    KeptRows(sc, rows, hit, |rows|);
    if sc.pk >= 0 {
      KeptKeys(PkFn(sc), rows, hit, |rows|);
      KeptUnique(PkKeys(sc, rows), hit, |rows|);
      KeptKeyed(PkKeys(sc, rows), hit);
    }
    forall j | 0 <= j < |sc.uks| ensures Unique(UkKeys(sc, sc.uks[j], Kept(rows, hit, |rows|))) {
      KeptKeys(UkFn(sc, sc.uks[j]), rows, hit, |rows|);
      KeptUnique(UkKeys(sc, sc.uks[j], rows), hit, |rows|);
    }
  }

  lemma DeleteKeeps(sc: Schema, rows: seq<Row>, hit: seq<bool>, next: int)
    requires Sized(sc) && RowsOk(sc, rows) && |hit| == |rows|
    ensures RowsOk(sc, Kept(rows, hit, |rows|))
    ensures NotNull(sc, rows) ==> NotNull(sc, Kept(rows, hit, |rows|))
    ensures IdsBelow(sc, rows, next) ==> IdsBelow(sc, Kept(rows, hit, |rows|), next)
  {
    KeptRows(sc, rows, hit, |rows|);
    var kept := Kept(rows, hit, |rows|);
    forall k | 0 <= k < |kept| ensures exists r :: 0 <= r < |rows| && rows[r] == kept[k] {
      var i := KeptFrom(rows, hit, |rows|, k);
    }
  }

  // ------------------------------------------------------------ a row more

  /** Indexes of the rows are indexes of the first rows of a longer table. */
  lemma BuiltStays(sc: Schema, rows: seq<Row>, row: Row, m: map<int, int>, ms: seq<map<int, int>>)
    requires SchemaOk(sc) && RowsOk(sc, rows) && |row| == |sc.cols| && PkHolds(sc, rows, |rows|, m) && UksHold(sc, rows, ms, |rows|, 0)
    ensures RowsOk(sc, rows + [row]) == true
    ensures PkHolds(sc, rows + [row], |rows|, m) == true && UksHold(sc, rows + [row], ms, |rows|, 0) == true
  {
    var n := |rows|;
    KeysPush(sc, rows, row);
    if sc.pk >= 0 {
      PrefixSame(PkKeys(sc, rows), PkKey(sc, row));
    }
    forall j | 0 <= j < |ms| ensures UkHolds(sc, rows + [row], j, n, ms[j]) {
      assert UkHolds(sc, rows, j, n, ms[j]);
      PrefixSame(UkKeys(sc, sc.uks[j], rows), TextKey(row[sc.uks[j]], sc.rec));
    }
  }

  lemma PrefixSame(ks: seq<Option<int>>, k: Option<int>)
    ensures (ks + [k])[..|ks|] == ks[..|ks|]
  {
  }

  lemma UksStayUnique(sc: Schema, rows: seq<Row>, row: Row)
    requires SchemaOk(sc) && RowsOk(sc, rows) && |row| == |sc.cols| && UksUnique(sc, rows)
    requires TextsFree(sc, rows, row, |sc.uks|)
    ensures RowsOk(sc, rows + [row]) && UksUnique(sc, rows + [row]) == true
  {
    KeysPush(sc, rows, row);
    forall j | 0 <= j < |sc.uks| ensures Unique(UkKeys(sc, sc.uks[j], rows + [row])) {
      var ks, k := UkKeys(sc, sc.uks[j], rows), TextKey(row[sc.uks[j]], sc.rec);
      assert TextFree(sc, rows, sc.uks[j], row[sc.uks[j]], -1);
      forall i | 0 <= i < |ks| && k.Some? ensures ks[i] != k {
        UkKeyAt(sc, rows, sc.uks[j], i);
      }
      UniquePush(ks, k);
    }
  }

  /** The PK index is right after the insertion exactly when the row holds the id that
      was indexed. */
  lemma AppendedPk(sc: Schema, rows: seq<Row>, row: Row, id: int, m: map<int, int>)
    requires Sized(sc) && sc.pk >= 0 && RowsOk(sc, rows) && |row| == |sc.cols| && RowsOk(sc, rows + [row]) && AllKeyed(PkKeys(sc, rows))
    requires Indexed(PkKeys(sc, rows + [row])[..|rows|] + [Some(id)], m)
    ensures PkHolds(sc, rows + [row], |rows| + 1, m) == true <==> PkKey(sc, row) == Some(id)
  {
    KeysPush(sc, rows, row);
    var ks, ks' := PkKeys(sc, rows), PkKeys(sc, rows + [row]);
    assert ks'[..|rows|] == ks && ks'[..|rows| + 1] == ks';
    var all := ks + [Some(id)];
    assert all[|rows|] == Some(id);
    assert id in m && m[id] == |rows|;
  }

  // ------------------------------------------------------------ whole statements

  datatype Tab = Tab(rows: seq<Row>, next: int)

  datatype Stmt =
    | InsertStmt(text: Str)
    | UpdateStmt(col: Str, val: Str, conds: seq<Cond>)
    | DeleteStmt(conds: seq<Cond>)

  /** What a committed version promises: unique PKs and UKs, filled NN columns, and every
      id in use below the next one. */
  ghost predicate Constraints(sc: Schema, t: Tab)
    requires SchemaOk(sc)
  {
    RowsOk(sc, t.rows) && Indexable(sc, t.rows) && NotNull(sc, t.rows) && IdsBelow(sc, t.rows, t.next)
  }

  /** A statement that succeeds gives a new table. */
  ghost function Exec(sc: Schema, t: Tab, s: Stmt): Option<Tab>
    requires SchemaOk(sc) && sc.pk >= 0 && RowsOk(sc, t.rows)
  {
    match s
    case InsertStmt(text) =>
      var n := RowNew(sc, SplitCsv(text, sc.rec), t.next);
      if Accepts(sc, t.rows, n) then Some(Tab(t.rows + [n.row], n.next)) else None
    case UpdateStmt(col, val, conds) =>
      var c, v := ColIdx(sc.cols, col), Norm(val, 256);
      if UpdateOk(sc, conds, c, v) && RowsOk(sc, Updated(t.rows, Flags(sc, conds, t.rows), c, v)) && Indexable(sc, Updated(t.rows, Flags(sc, conds, t.rows), c, v))
      then Some(Tab(Updated(t.rows, Flags(sc, conds, t.rows), c, v), t.next)) else None
    case DeleteStmt(conds) =>
      if conds != [] then Some(Tab(Kept(t.rows, Flags(sc, conds, t.rows), |t.rows|), t.next)) else None
  }

  /** The number in the id field of a new row once it is trimmed. */
  function StoredId(sc: Schema, vals: seq<Str>): Option<int>
    requires 0 <= sc.pk < |vals|
  {
    ParseL(Trim(vals[sc.pk]))
  }

  /** The id of an INSERT, if it gives one, is still a number after it is trimmed, which no
      row has and which is below the next automatic id. */
  ghost predicate IdSafe(sc: Schema, t: Tab, s: Stmt)
    requires Sized(sc) && sc.pk >= 0 && RowsOk(sc, t.rows)
  {
    s.InsertStmt? ==>
      var vals := SplitCsv(s.text, sc.rec);
      CountOk(sc, vals) && !AutoId(sc, vals) ==>
        StoredId(sc, vals).Some? && StoredId(sc, vals) !in PkKeys(sc, t.rows) && StoredId(sc, vals).value < RowNew(sc, vals, t.next).next
  }

  /** The simple case: the id field reads the same before and after it is trimmed, as every
      field of at most 255 bytes does. */
  predicate GoodId(sc: Schema, s: Stmt)
    requires Sized(sc) && sc.pk >= 0
  {
    s.InsertStmt? ==> var vals := SplitCsv(s.text, sc.rec); CountOk(sc, vals) ==> IdReads(sc, vals)
  }

  lemma GoodIdSafe(sc: Schema, t: Tab, s: Stmt)
    requires SchemaOk(sc) && sc.pk >= 0 && RowsOk(sc, t.rows) && GoodId(sc, s) && Exec(sc, t, s).Some?
    ensures IdSafe(sc, t, s) == true
  {
  }

  /** The PK an accepted INSERT stores is the next id, or the number in its field. */
  lemma StoredPk(sc: Schema, vals: seq<Str>, next: int)
    requires Sized(sc) && sc.pk >= 0 && RowNew(sc, vals, next).Made? && LONG_MIN <= next < LONG_END
    ensures PkKey(sc, RowNew(sc, vals, next).row) == if AutoId(sc, vals) then Some(next) else StoredId(sc, vals)
    ensures AutoId(sc, vals) ==> RowNew(sc, vals, next).next == next + 1
  {
    var n := RowNew(sc, vals, next);
    assert n.row[sc.pk] == CellOf(sc, vals, n.id, sc.pk);
    if AutoId(sc, vals) {
      ShowReads(next);
    }
  }

  /** A row with these keys can join the table. */
  ghost predicate RowSafe(sc: Schema, rows: seq<Row>, row: Row, next: int)
    requires Sized(sc) && sc.pk >= 0 && RowsOk(sc, rows) && |row| == |sc.cols|
  {
    var k := PkKey(sc, row); k.Some? && k !in PkKeys(sc, rows) && k.value < next
  }

  lemma RowSafeIff(sc: Schema, t: Tab, row: Row, next: int)
    requires SchemaOk(sc) && sc.pk >= 0 && Constraints(sc, t) && |row| == |sc.cols| && t.next <= next
    requires TextsFree(sc, t.rows, row, |sc.uks|) == true && Filled(sc, row) == true
    ensures Constraints(sc, Tab(t.rows + [row], next)) == RowSafe(sc, t.rows, row, next)
  {
    UksStayUnique(sc, t.rows, row);
    FilledStays(sc, t.rows, row);
    PkPushIff(sc, t.rows, row);
    BelowPushIff(sc, t.rows, row, t.next, next);
  }

  lemma PkPushIff(sc: Schema, rows: seq<Row>, row: Row)
    requires Sized(sc) && sc.pk >= 0 && RowsOk(sc, rows) && |row| == |sc.cols| && AllKeyed(PkKeys(sc, rows)) && Unique(PkKeys(sc, rows)) == true
    ensures RowsOk(sc, rows + [row])
    ensures var ks := PkKeys(sc, rows + [row]); (AllKeyed(ks) && Unique(ks)) == (PkKey(sc, row).Some? && PkKey(sc, row) !in PkKeys(sc, rows))
  {
    PkKeysPush(sc, rows, row);
    UniquePush(PkKeys(sc, rows), PkKey(sc, row));
    assert (PkKeys(sc, rows) + [PkKey(sc, row)])[|rows|] == PkKey(sc, row);
  }

  lemma BelowPushIff(sc: Schema, rows: seq<Row>, row: Row, next: int, next': int)
    requires Sized(sc) && sc.pk >= 0 && RowsOk(sc, rows) && |row| == |sc.cols| && IdsBelow(sc, rows, next) && next <= next'
    ensures RowsOk(sc, rows + [row])
    ensures IdsBelow(sc, rows + [row], next') == (PkKey(sc, row).Some? ==> PkKey(sc, row).value < next')
  {
    assert (rows + [row])[|rows|] == row;
  }

  /** An INSERT that succeeds keeps the constraints exactly when its id is safe. */
  lemma InsertKeepsIff(sc: Schema, t: Tab, text: Str)
    requires SchemaOk(sc) && sc.pk >= 0 && Constraints(sc, t) == true && LONG_MIN <= t.next < LONG_END
    requires Accepts(sc, t.rows, RowNew(sc, SplitCsv(text, sc.rec), t.next))
    ensures var n := RowNew(sc, SplitCsv(text, sc.rec), t.next);
            Constraints(sc, Tab(t.rows + [n.row], n.next)) == IdSafe(sc, t, InsertStmt(text))
  {
    var vals := SplitCsv(text, sc.rec);
    var n := RowNew(sc, vals, t.next);
    RowSafeIff(sc, t, n.row, n.next);
    StoredPk(sc, vals, t.next);
    if AutoId(sc, vals) {
      AutoIdFresh(sc, t.rows, vals, t.next);
    }
  }

  /** The INSERT of LongIdInsert succeeds on every table with that one column where 1 is
      free, and breaks its constraints where 12 is in use or the next id is at most 12. */
  lemma LongIdBreaks(sc: Schema, f: Str, t: Tab)
    requires SchemaOk(sc) && OnlyId(sc) && sc.rec > 256 && IsLongId(f) && Constraints(sc, t) == true && LONG_MIN <= t.next < LONG_END && |t.rows| < MAX_RECORDS
    requires Some(1) !in PkKeys(sc, t.rows) && (Some(12) in PkKeys(sc, t.rows) || t.next <= 12)
    ensures Exec(sc, t, InsertStmt(f)).Some? && Constraints(sc, Exec(sc, t, InsertStmt(f)).value) == false
  {
    LongIdFields(sc, f);
    LongIdRow(sc, f, t.rows, t.next);
    InsertKeepsIff(sc, t, f);
  }

  /** There are such tables: the empty one, after which 12 is in use above the next id, and
      one that holds 12, after which it does twice. */
  lemma LongIdTables(sc: Schema, row: Row)
    requires SchemaOk(sc) && OnlyId(sc) && |row| == 1 && PkKey(sc, row) == Some(12)
    ensures Constraints(sc, Tab([], 1)) && PkKeys(sc, []) == []
    ensures Constraints(sc, Tab([row], 13)) && PkKeys(sc, [row]) == [Some(12)]
  {
    PkKeyAt(sc, [row], 0);
  }

  lemma FilledStays(sc: Schema, rows: seq<Row>, row: Row)
    requires RowsOk(sc, rows) && |row| == |sc.cols| && NotNull(sc, rows) && Filled(sc, row)
    ensures RowsOk(sc, rows + [row]) && NotNull(sc, rows + [row]) == true
  {
  }

  /** A statement that succeeds keeps the constraints if and only if the id it gives, if it
      gives one, is safe: only an INSERT whose id field reads differently once it is trimmed
      can break them. */
  lemma ExecKeeps(sc: Schema, t: Tab, s: Stmt)
    requires SchemaOk(sc) && sc.pk >= 0 && Constraints(sc, t) == true && LONG_MIN <= t.next < LONG_END && Exec(sc, t, s).Some?
    ensures Constraints(sc, Exec(sc, t, s).value) == IdSafe(sc, t, s)
  {
    match s
    case InsertStmt(text) => InsertKeepsIff(sc, t, text);
    case UpdateStmt(col, val, conds) => UpdateKeepsAll(sc, t, Flags(sc, conds, t.rows), ColIdx(sc.cols, col), Norm(val, 256));
    case DeleteStmt(conds) => DeleteKeepsAll(sc, t, Flags(sc, conds, t.rows));
  }

  lemma UpdateKeepsAll(sc: Schema, t: Tab, hit: seq<bool>, c: nat, v: Str)
    requires SchemaOk(sc) && Constraints(sc, t) && |hit| == |t.rows| && c < |sc.cols| && c != sc.pk && !(sc.cols[c].kind == NN && v == [])
    requires RowsOk(sc, Updated(t.rows, hit, c, v)) && Indexable(sc, Updated(t.rows, hit, c, v)) == true
    ensures Constraints(sc, Tab(Updated(t.rows, hit, c, v), t.next)) == true
  {
    UpdateKeeps(sc, t.rows, hit, c, v, t.next);
  }

  lemma DeleteKeepsAll(sc: Schema, t: Tab, hit: seq<bool>)
    requires SchemaOk(sc) && Constraints(sc, t) && |hit| == |t.rows|
    ensures Constraints(sc, Tab(Kept(t.rows, hit, |t.rows|), t.next)) == true
  {
    DeleteIndexable(sc, t.rows, hit);
    DeleteKeeps(sc, t.rows, hit, t.next);
  }

  /** A statement succeeds, with the next id in range. */
  ghost predicate Runs(sc: Schema, t: Tab, s: Stmt, t': Tab)
    requires SchemaOk(sc) && sc.pk >= 0
  {
    LONG_MIN <= t.next < LONG_END && RowsOk(sc, t.rows) && Exec(sc, t, s) == Some(t')
  }

  ghost predicate AllRun(sc: Schema, ts: seq<Tab>, ss: seq<Stmt>)
    requires SchemaOk(sc) && sc.pk >= 0
  {
    |ts| == |ss| + 1 && forall j :: 0 <= j < |ss| ==> Runs(sc, ts[j], ss[j], ts[j + 1])
  }

  /** The first n statements of a run are safe, each on the table it meets. */
  ghost predicate AllSafe(sc: Schema, ts: seq<Tab>, ss: seq<Stmt>, n: nat)
    requires Sized(sc) && sc.pk >= 0 && n <= |ss| && |ts| == |ss| + 1
  {
    forall j :: 0 <= j < n ==> RowsOk(sc, ts[j].rows) && IdSafe(sc, ts[j], ss[j])
  }

  lemma RunsAt(sc: Schema, ts: seq<Tab>, ss: seq<Stmt>, i: nat, j: nat)
    requires SchemaOk(sc) == true && sc.pk >= 0 && i + 1 == j < |ts| && AllRun(sc, ts, ss) == true
    ensures Runs(sc, ts[i], ss[i], ts[j]) == true
  {
    assert Runs(sc, ts[i], ss[i], ts[i + 1]);
  }

  lemma RunsKeeps(sc: Schema, t: Tab, s: Stmt, t': Tab)
    requires SchemaOk(sc) == true && sc.pk >= 0 && Runs(sc, t, s, t') == true && Constraints(sc, t) == true
    ensures Constraints(sc, t') == IdSafe(sc, t, s)
  {
    ExecKeeps(sc, t, s);
  }

  lemma RunsAtKeeps(sc: Schema, ts: seq<Tab>, ss: seq<Stmt>, i: nat, j: nat)
    requires SchemaOk(sc) == true && sc.pk >= 0 && i + 1 == j < |ts| && AllRun(sc, ts, ss) == true && Constraints(sc, ts[i]) == true
    ensures Constraints(sc, ts[j]) == IdSafe(sc, ts[i], ss[i])
  {
    RunsAt(sc, ts, ss, i, j);
    RunsKeeps(sc, ts[i], ss[i], ts[j]);
  }

  lemma SafeAt(sc: Schema, ts: seq<Tab>, ss: seq<Stmt>, i: nat, n: nat)
    requires Sized(sc) && sc.pk >= 0 && i < n <= |ss| && |ts| == |ss| + 1 && AllSafe(sc, ts, ss, n)
    ensures RowsOk(sc, ts[i].rows) && IdSafe(sc, ts[i], ss[i]) == true && AllSafe(sc, ts, ss, i) == true
  {
  }

  /** Whatever succeeding statements run one after another, the table they lead to keeps
      its constraints if they were all safe ... */
  lemma {:induction false} RunKeeps(sc: Schema, ts: seq<Tab>, ss: seq<Stmt>, n: nat)
    requires SchemaOk(sc) == true && sc.pk >= 0 && n < |ts| && AllRun(sc, ts, ss) == true && Constraints(sc, ts[0]) == true
    requires AllSafe(sc, ts, ss, n) == true
    ensures Constraints(sc, ts[n]) == true
  {
    if n != 0 {
      var m := n - 1;
      SafeAt(sc, ts, ss, m, n);
      RunKeeps(sc, ts, ss, m);
      RunsAtKeeps(sc, ts, ss, m, n);
    }
  }

  /** ... and all tables on the way do only if they were. */
  lemma RunKeepsOnly(sc: Schema, ts: seq<Tab>, ss: seq<Stmt>, n: nat)
    requires SchemaOk(sc) == true && sc.pk >= 0 && n < |ts| && AllRun(sc, ts, ss) == true
    requires forall i :: 0 <= i <= n ==> Constraints(sc, ts[i]) == true
    ensures AllSafe(sc, ts, ss, n) == true
  {
    forall j | 0 <= j < n ensures RowsOk(sc, ts[j].rows) && IdSafe(sc, ts[j], ss[j]) {
      var k := j + 1;
      RunsAtKeeps(sc, ts, ss, j, k);
    }
  }

  /** Everything an insertion with free keys starts from. */
  lemma AppendFacts(sc: Schema, rows: seq<Row>, row: Row, m: map<int, int>, ms: seq<map<int, int>>)
    requires SchemaOk(sc) && RowsOk(sc, rows) && |row| == |sc.cols| && PkHolds(sc, rows, |rows|, m) == true && UksHold(sc, rows, ms, |rows|, 0) == true
    requires TextsFree(sc, rows, row, |sc.uks|)
    ensures RowsOk(sc, rows + [row]) == true && UksUnique(sc, rows + [row]) == true
    ensures PkHolds(sc, rows + [row], |rows|, m) == true && UksHold(sc, rows + [row], ms, |rows|, 0) == true
  {
    BuiltStays(sc, rows, row, m, ms);
    HoldsIndexable(sc, rows, m, ms);
    UksStayUnique(sc, rows, row);
  }
}
