/** A table version with its index trees, and the statements that run on it
    (src/db/dbapi.c:356-555, 607-733, 992-1141). */
module Engine {
  import opened Basics
  import opened Text
  import opened EngineSpec
  import opened SelectSpec
  import opened WriteSpec
  import BTreeSpec
  import BTreeHeap

  type Tree = BTreeHeap.BPlusTree

  /** Mentioning Seen(t) makes what TreeOk and Index say of t available to a proof.  The
      other proofs treat a tree as a map and never look inside it. */
  ghost predicate Seen(t: Tree) {
    true
  }

  /** A tree that can take the keys from lo up to hi. */
  ghost function TreeOk(t: Tree, lo: int, hi: int): (ok: bool)
    reads t
    ensures forall z {:trigger Seen(z)} :: z == t && Seen(z) ==> (ok <==> z.Valid() && z.bound == z.order <= 32 && z.keyMin == lo && z.keyEnd == hi)
  {
    var ok :| forall z {:trigger Seen(z)} :: z == t && Seen(z) ==> (ok <==> z.Valid() && z.bound == z.order <= 32 && z.keyMin == lo && z.keyEnd == hi);
    ok
  }

  /** What a tree holds. */
  ghost function Index(t: Tree): (m: map<int, int>)
    reads t
    ensures forall z {:trigger Seen(z)} :: z == t && Seen(z) ==> m == z.Map()
  {
    var m :| forall z {:trigger Seen(z)} :: z == t && Seen(z) ==> m == z.Map();
    m
  }

  /** What a range search shows a visitor that never declines. */
  method Span(t: Tree, lo: int, hi: int, ghost min: int, ghost end: int) returns (ps: BTreeSpec.Pairs)
    requires TreeOk(t, min, end) && min <= lo < end
    ensures SpanOf(ps, Index(t), lo, hi) == true
  {
    assert Seen(t);
    var ok;
    var always := (_: BTreeSpec.Pairs) => true;
    ps, ok := t.RangeSearch(lo, hi, always);
    BTreeSpec.FlatSorted(t.shape, t.height, t.keyMin, t.keyEnd, t.bound);
    VisitedIsSpan(t.Contents(), lo, hi, always);
  }

  lemma VisitedIsSpan(s: BTreeSpec.Pairs, lo: int, hi: int, visitor: BTreeSpec.Pairs -> bool)
    requires BTreeSpec.SortedPairs(s) && forall ps :: visitor(ps)
    ensures SpanOf(BTreeSpec.Visits(BTreeSpec.Range(s, lo, hi), [], visitor).0, BTreeSpec.ToMap(s), lo, hi) == true
  {
    BTreeSpec.VisitsPrefix(BTreeSpec.Range(s, lo, hi), [], visitor);
    RangeIsSpan(s, lo, hi);
  }

  /** A search. */
  method Find(t: Tree, key: int, ghost min: int, ghost end: int) returns (found: bool, row: int)
    requires TreeOk(t, min, end) && min <= key < end
    ensures found <==> key in Index(t)
    ensures found ==> row == Index(t)[key]
  {
    assert Seen(t);
    found, row := t.Search(key);
  }

  /** An empty tree. */
  method NewTree(lo: int, hi: int) returns (t: Tree)
    requires lo < hi
    ensures fresh(t) && TreeOk(t, lo, hi) && Index(t) == map[]
  {
    t := new BTreeHeap.BPlusTree(lo, hi, 32);
    assert Seen(t);
  }

  datatype Res =
    | Fail(code: string)
    | Rows(ids: seq<int>, cells: seq<seq<(Str, Str)>>)

  datatype Write =
    | Failed(code: string)
    | Done(count: nat, lastId: int)

  /** The cells of a result row: column names with values. */
  function Project(sc: Schema, row: Row, sel: seq<nat>): seq<(Str, Str)>
    requires |row| == |sc.cols| && forall j :: 0 <= j < |sel| ==> sel[j] < |sc.cols|
  {
    seq(|sel|, j requires 0 <= j < |sel| => (sc.cols[sel[j]].name, row[sel[j]]))
  }

  ghost predicate Apart(pk: Tree, uks: seq<Tree>) {
    pk !in uks && forall i, j :: 0 <= i < j < |uks| ==> uks[i] != uks[j]
  }

  ghost function MapsOf(ts: seq<Tree>): (ms: seq<map<int, int>>)
    reads ts
  {
    seq(|ts|, j requires 0 <= j < |ts| reads ts => Index(ts[j]))
  }

  /** Adding the key of the next row to an index; a row without a key is not added. */
  method AddKey(t: Tree, k: Option<int>, row: nat, ghost ks: seq<Option<int>>, ghost lo: int, ghost hi: int) returns (ok: bool)
    requires TreeOk(t, lo, hi) && Indexed(ks, Index(t)) && row == |ks| && (k.Some? ==> lo <= k.value < hi)
    modifies t
    ensures TreeOk(t, lo, hi)
    ensures ok ==> Indexed(ks + [k], Index(t))
    ensures !ok ==> !Unique(ks + [k])
    ensures ok <==> k.None? || k.value !in old(Index(t))
  {
    IndexedPush(ks, Index(t), k);
    if k.None? {
      return true;
    }
    ok := InsertKey(t, k.value, row, lo, hi);
  }

  /** An insertion that succeeds exactly on a new key. */
  method InsertKey(t: Tree, key: int, row: int, ghost lo: int, ghost hi: int) returns (ok: bool)
    requires TreeOk(t, lo, hi) && lo <= key < hi
    modifies t
    ensures TreeOk(t, lo, hi)
    ensures ok <==> key !in old(Index(t))
    ensures ok ==> Index(t) == old(Index(t))[key := row]
  {
    assert Seen(t);
    t.MadeForOrder();
    var code := t.InsertPair(key, row);
    ok := code == 1;
    assert Seen(t);
  }

  /** The first n NN columns of a row are filled. */
  ghost predicate FilledTo(sc: Schema, row: Row, n: nat)
    requires n <= |row| == |sc.cols|
  {
    forall c :: 0 <= c < n && sc.cols[c].kind == NN ==> row[c] != []
  }

  lemma FilledNext(sc: Schema, row: Row, n: nat)
    requires n < |row| == |sc.cols| && FilledTo(sc, row, n)
    ensures row[..n + 1] == row[..n] + [row[n]]
    ensures FilledTo(sc, row, n + 1) == !(sc.cols[n].kind == NN && row[n] == [])
    ensures sc.cols[n].kind == NN && row[n] == [] ==> Filled(sc, row) == false
  {
  }

  lemma FilledAll(sc: Schema, all: Row, row: Row)
    requires |all| == |sc.cols| && row == all[..|all|] && FilledTo(sc, all, |all|)
    ensures row == all && Filled(sc, all) == true
  {
  }

  class Table {
    const sc: Schema
    var rows: seq<Row>
    var nextId: int
    var pk: Tree
    var uks: seq<Tree>

    ghost predicate UkTrees()
      reads this`uks, uks
    {
      |uks| == |sc.uks| && forall j :: 0 <= j < |uks| ==> TreeOk(uks[j], 0, Pow(sc.rec))
    }

    /** The trees are in shape, whatever they hold. */
    ghost predicate Trees()
      reads this`pk, this`uks, pk, uks
    {
      SchemaOk(sc) && Apart(pk, uks) && TreeOk(pk, LONG_MIN, LONG_END) && UkTrees()
    }

    /** The rows and the next id. */
    ghost function Value(): WriteSpec.Tab
      reads this`rows, this`nextId
    {
      WriteSpec.Tab(rows, nextId)
    }

    ghost function UkMaps(): (ms: seq<map<int, int>>)
      reads this`uks, uks
    {
      MapsOf(uks)
    }

    /** The indexes hold the first n rows. */
    ghost predicate Built(n: nat)
      requires SchemaOk(sc) && RowsOk(sc, rows) && n <= |rows|
      reads this`rows, this`pk, this`uks, pk, uks
    {
      Trees() && PkHolds(sc, rows, n, Index(pk)) && UksHold(sc, rows, UkMaps(), n, 0)
    }

    /** A table that has its rows but no index yet, as in tab_load and tab_clone. */
    constructor (sc: Schema, rows: seq<Row>, nextId: int)
      ensures this.sc == sc && this.rows == rows && this.nextId == nextId
    {
      this.sc, this.rows, this.nextId := sc, rows, nextId;
      var t := NewTree(LONG_MIN, LONG_END);
      pk, uks := t, [];
    }

    /** idx_build: fills new trees row by row; it fails exactly when a PK is not a number
        or a key occurs twice. */
    method IdxBuild() returns (ok: bool)
      requires SchemaOk(sc) == true && RowsOk(sc, rows) == true
      modifies this`pk, this`uks
      ensures ok <==> Indexable(sc, rows) == true
      ensures ok ==> Built(|rows|) == true
      ensures fresh(pk) && fresh(uks)
    {
      pk := NewTree(LONG_MIN, LONG_END);
      NewUks();
      ok := AddRows();
    }

    /** The row loop of idx_build. */
    method AddRows() returns (ok: bool)
      requires SchemaOk(sc) == true && RowsOk(sc, rows) == true && Built(0) == true
      modifies pk, uks
      ensures ok <==> Indexable(sc, rows) == true
      ensures ok ==> Built(|rows|) == true
    {
      var i := 0;
      while i < |rows|
        invariant 0 <= i <= |rows| && Built(i) == true
      {
        ok := AddRow(i);
        if !ok {
          return;
        }
        i := i + 1;
      }
      ok := true;
      HoldsIndexable(sc, rows, Index(pk), UkMaps());
    }

    method NewUks()
      requires SchemaOk(sc) == true && RowsOk(sc, rows) == true && TreeOk(pk, LONG_MIN, LONG_END) && Index(pk) == map[]
      modifies this`uks
      ensures fresh(uks) && Built(0) == true
    {
      uks := [];
      var j := 0;
      while j < |sc.uks|
        invariant 0 <= j == |uks| <= |sc.uks| && fresh(uks) && Apart(pk, uks)
        invariant forall k :: 0 <= k < j ==> TreeOk(uks[k], 0, Pow(sc.rec)) && Index(uks[k]) == map[]
      {
        var t := NewTree(0, Pow(sc.rec));
        uks := uks + [t];
        j := j + 1;
      }
      UksEmpty(sc, rows, UkMaps());
    }

    /** The body of the row loop of idx_build. */
    method AddRow(i: nat) returns (ok: bool)
      requires SchemaOk(sc) == true && RowsOk(sc, rows) == true && i < |rows| && Built(i) == true
      modifies pk, uks
      ensures ok ==> Built(i + 1) == true
      ensures !ok ==> Indexable(sc, rows) == false
    {
      if sc.pk >= 0 {
        ok := AddPk(i);
        if !ok {
          return;
        }
      }
      ok := AddUks(i, i + 1);
    }

    method AddPk(i: nat) returns (ok: bool)
      requires SchemaOk(sc) == true && RowsOk(sc, rows) == true && i < |rows| && Trees() == true && PkHolds(sc, rows, i, Index(pk)) && sc.pk >= 0
      modifies pk
      ensures Trees() == true && UkMaps() == old(UkMaps())
      ensures ok ==> PkHolds(sc, rows, i + 1, Index(pk)) == true
      ensures !ok ==> Indexable(sc, rows) == false
    {
      var k := ParseL(rows[i][sc.pk]);
      PkKeyAt(sc, rows, i);
      PrefixPush(PkKeys(sc, rows), i);
      if k.None? {
        NotKeyed(sc, rows, i);
        return false;
      }
      ok := PutPk(k, i, PkKeys(sc, rows)[..i]);
      if ok {
        PkGrown(sc, rows, i, old(Index(pk)), Index(pk));
      } else {
        PkRefused(sc, rows, i);
      }
    }

    /** The PK tree takes a key; the UK trees stay as they are. */
    method PutPk(k: Option<int>, row: nat, ghost ks: seq<Option<int>>) returns (ok: bool)
      requires Trees() && Indexed(ks, Index(pk)) == true && row == |ks| && (k.Some? ==> LONG_MIN <= k.value < LONG_END)
      modifies pk
      ensures Trees() == true && UkMaps() == old(UkMaps())
      ensures ok ==> Indexed(ks + [k], Index(pk)) == true
      ensures !ok ==> !Unique(ks + [k])
      ensures ok <==> k.None? || k.value !in old(Index(pk))
    {
      ok := AddKey(pk, k, row, ks, LONG_MIN, LONG_END);
    }

    method AddUks(i: nat, ghost next: nat) returns (ok: bool)
      requires SchemaOk(sc) == true && RowsOk(sc, rows) == true && i < |rows| && next == i + 1 && Trees() == true && UksHold(sc, rows, UkMaps(), i, 0) == true
      modifies uks
      ensures Trees() == true && Index(pk) == old(Index(pk))
      ensures ok ==> UksHold(sc, rows, UkMaps(), next, 0) == true
      ensures !ok ==> UksUnique(sc, rows) == false
    {
      var j := 0;
      while j < |sc.uks|
        invariant 0 <= j <= |sc.uks| && Trees() == true && UksHold(sc, rows, UkMaps(), i, j) == true && Index(pk) == old(Index(pk))
      {
        ghost var ms := UkMaps();
        assert UkHolds(sc, rows, j, i, ms[j]) && ms[j] == Index(uks[j]);
        ok := AddUk(i, j);
        if !ok {
          return;
        }
        UksStep(sc, rows, ms, i, j, Index(uks[j]));
        j := j + 1;
      }
      ok := true;
      UksDone(sc, rows, UkMaps(), i);
    }

    method AddUk(i: nat, j: nat) returns (ok: bool)
      requires SchemaOk(sc) == true && RowsOk(sc, rows) == true && i < |rows| && j < |sc.uks| && Trees() == true && |uks| == |sc.uks|
      requires UkHolds(sc, rows, j, i, Index(uks[j]))
      modifies uks[j]
      ensures Trees() == true && UkMaps() == old(UkMaps())[j := Index(uks[j])] && Index(pk) == old(Index(pk))
      ensures ok ==> UkHolds(sc, rows, j, i + 1, Index(uks[j])) == true
      ensures !ok ==> UksUnique(sc, rows) == false
    {
      UkKeyAt(sc, rows, sc.uks[j], i);
      PrefixPush(UkKeys(sc, sc.uks[j], rows), i);
      ok := PutUk(j, TextKey(rows[i][sc.uks[j]], sc.rec), i, UkKeys(sc, sc.uks[j], rows)[..i]);
      UkGrown(sc, rows, j, i, Index(uks[j]), ok);
    }

    /** One UK tree takes a key; the others stay as they are. */
    method PutUk(j: nat, k: Option<int>, row: nat, ghost ks: seq<Option<int>>) returns (ok: bool)
      requires Trees() && j < |uks| && Indexed(ks, Index(uks[j])) == true && row == |ks| && (k.Some? ==> 0 <= k.value < Pow(sc.rec))
      modifies uks[j]
      ensures Trees() == true && UkMaps() == old(UkMaps())[j := Index(uks[j])] && Index(pk) == old(Index(pk))
      ensures ok ==> Indexed(ks + [k], Index(uks[j])) == true
      ensures !ok ==> !Unique(ks + [k])
      ensures ok <==> k.None? || k.value !in old(Index(uks[j]))
    {
      ok := AddKey(uks[j], k, row, ks, 0, Pow(sc.rec));
    }

    /** The rows and their indexes agree. */
    ghost predicate Valid()
      reads this`rows, this`pk, this`uks, pk, uks
    {
      SchemaOk(sc) && RowsOk(sc, rows) && Built(|rows|)
    }

    /** col_idx. */
    method FindCol(name: Str) returns (i: int)
      ensures i == ColIdx(sc.cols, name)
    {
      i := 0;
      while i < |sc.cols|
        invariant 0 <= i <= |sc.cols| && forall j :: 0 <= j < i ==> sc.cols[j].name != name
      {
        if sc.cols[i].name == name {
          return;
        }
        i := i + 1;
      }
      i := -1;
    }

    /** row_match. */
    method RowMatch(conds: seq<Cond>, row: Row) returns (ok: bool)
      requires Sized(sc) && |row| == |sc.cols|
      ensures ok <==> Matches(sc, conds, row)
    {
      var i := 0;
      while i < |conds|
        invariant 0 <= i <= |conds| && forall j :: 0 <= j < i ==> Holds(sc, conds[j], row)
      {
        var c := FindCol(conds[i].col);
        if c < 0 {
          return false;
        }
        match conds[i] {
          case Eq(_, v) =>
            if Norm(row[c], sc.rec) != Norm(v, sc.rec) {
              return false;
            }
          case Between(_, lo, hi) =>
            if c == sc.pk {
              var k, a, b := ParseL(row[c]), ParseL(lo), ParseL(hi);
              if k.None? || a.None? || b.None? || k.value < a.value || k.value > b.value {
                return false;
              }
            } else if !InSpan(row[c], lo, hi, sc.rec) {
              return false;
            }
          case Untyped(_) =>
            return false;
        }
        i := i + 1;
      }
      ok := true;
    }

    /** pick_idx. */
    method PickIdx(conds: seq<Cond>) returns (best: int)
      ensures best == Pick(sc, conds)
    {
      best := -1;
      var top, i := 0, 0;
      while i < |conds|
        invariant 0 <= i <= |conds| && best == Pick(sc, conds[..i]) && -1 <= best < i
        invariant top == if best < 0 then 0 else Score(sc, conds[best])
      {
        PickStep(sc, conds, i);
        var score := Score(sc, conds[i]);
        if score > top {
          top, best := score, i;
        }
        i := i + 1;
      }
      assert conds[..|conds|] == conds;
    }

    /** sel_vis over the entries a range search shows. */
    method Visit(conds: seq<Cond>, ps: BTreeSpec.Pairs) returns (ids: seq<int>)
      requires SchemaOk(sc) && RowsOk(sc, rows)
      ensures ids == Keep(sc, conds, rows, ps)
    {
      ids := [];
      var i := 0;
      while i < |ps|
        invariant 0 <= i <= |ps| && ids == Keep(sc, conds, rows, ps[..i])
      {
        assert ps[..i + 1][..i] == ps[..i];
        var r := ps[i].1;
        if 0 <= r < |rows| {
          var ok := RowMatch(conds, rows[r]);
          if ok {
            ids := ids + [r];
          }
        }
        i := i + 1;
      }
      assert ps[..|ps|] == ps;
    }

    /** The loop over all rows. */
    method ScanRows(conds: seq<Cond>) returns (ids: seq<int>)
      requires SchemaOk(sc) && RowsOk(sc, rows)
      ensures Answers(sc, conds, Scan, rows, ids) == true && InOrder(sc, Scan, rows, ids) == true
    {
      ids := [];
      var i := 0;
      while i < |rows|
        invariant 0 <= i <= |rows|
        invariant ScanSoFar(sc, conds, rows, ids, i) == true
      {
        ScanStep(sc, conds, rows, ids, i);
        var ok := RowMatch(conds, rows[i]);
        if ok {
          ids := ids + [i];
        }
        i := i + 1;
      }
      ScanDone(sc, conds, rows, ids);
    }

    /** The row an equality search leads to, if it matches. */
    method Hit(conds: seq<Cond>, t: Tree, key: int, ghost min: int, ghost end: int) returns (ids: seq<int>)
      requires SchemaOk(sc) && RowsOk(sc, rows) && TreeOk(t, min, end) && min <= key < end
      ensures ids == Single(sc, conds, rows, Index(t), key) && |ids| <= 1
    {
      var found, r := Find(t, key, min, end);
      ids := [];
      if found && 0 <= r < |rows| {
        var ok := RowMatch(conds, rows[r]);
        if ok {
          ids := [r];
        }
      }
    }

    /** The row search of sel_do. */
    method FindRows(conds: seq<Cond>) returns (ok: bool, ids: seq<int>)
      requires Valid() == true
      ensures ok <==> PathOk(PathOf(sc, conds))
      ensures ok ==> Answers(sc, conds, PathOf(sc, conds), rows, ids) && InOrder(sc, PathOf(sc, conds), rows, ids)
    {
      var i := PickIdx(conds);
      var p := PathAt(sc, conds, i);
      PathIsOn(sc, conds, rows);
      ok, ids := PathOk(p), [];
      if !ok {
        return;
      }
      match p {
        case PkEq(v) =>
          ids := Hit(conds, pk, ParseL(v).value, LONG_MIN, LONG_END);
          PkEqAnswers(sc, conds, rows, Index(pk), v);
        case UkEq(s, v) =>
          ids := FindUk(conds, s, v);
        case PkSpan(lo, hi) =>
          var ps := Span(pk, ParseL(lo).value, ParseL(hi).value, LONG_MIN, LONG_END);
          ids := Visit(conds, ps);
          PkSpanAnswers(sc, conds, rows, Index(pk), lo, hi, ps);
        case UkSpan(s, lo, hi) =>
          ids := FindUkSpan(conds, s, lo, hi);
        case Scan =>
          ids := ScanRows(conds);
      }
    }

    method FindUk(conds: seq<Cond>, s: nat, v: Str) returns (ids: seq<int>)
      requires Valid() && s < |uks| && PathOn(sc, conds, UkEq(s, v), rows) == true
      ensures Answers(sc, conds, UkEq(s, v), rows, ids) == true && |ids| <= 1
    {
      ids := Hit(conds, uks[s], Rank(Norm(v, sc.rec), sc.rec), 0, Pow(sc.rec));
      assert UkHolds(sc, rows, s, |rows|, UkMaps()[s]);
      UkEqAnswers(sc, conds, rows, Index(uks[s]), s, v);
    }

    method FindUkSpan(conds: seq<Cond>, s: nat, lo: Str, hi: Str) returns (ids: seq<int>)
      requires Valid() && s < |uks| && PathOn(sc, conds, UkSpan(s, lo, hi), rows) == true
      ensures Answers(sc, conds, UkSpan(s, lo, hi), rows, ids) == true && InOrder(sc, UkSpan(s, lo, hi), rows, ids) == true
    {
      var ps := Span(uks[s], Rank(Norm(lo, sc.rec), sc.rec), Rank(Norm(hi, sc.rec), sc.rec), 0, Pow(sc.rec));
      ids := Visit(conds, ps);
      assert UkHolds(sc, rows, s, |rows|, UkMaps()[s]);
      UkSpanAnswers(sc, conds, rows, Index(uks[s]), s, lo, hi, ps);
    }

    /** sel_do: the result is refused for an unknown column or a PK bound that is no
        number, and otherwise has one row of cells for each row found. */
    method Select(all: bool, names: seq<Str>, conds: seq<Cond>) returns (r: Res)
      requires Valid() == true
      ensures r.Fail? <==> (!all && exists j :: 0 <= j < |names| && ColIdx(sc.cols, names[j]) < 0) || !PathOk(PathOf(sc, conds))
      ensures r.Rows? ==> Answers(sc, conds, PathOf(sc, conds), rows, r.ids) && InOrder(sc, PathOf(sc, conds), rows, r.ids)
      ensures r.Rows? ==> |r.cells| == |r.ids| && forall a :: 0 <= a < |r.ids| ==> 0 <= r.ids[a] < |rows| && |r.cells[a]| == (if all then |sc.cols| else |names|)
      ensures r.Rows? ==> forall a, j :: 0 <= a < |r.ids| && 0 <= j < |r.cells[a]| ==>
                var c := if all then j else ColIdx(sc.cols, names[j]);
                r.cells[a][j] == (sc.cols[c].name, rows[r.ids[a]][c])
    {
      var known, sel := SelectCols(all, names);
      if !known {
        return Fail("BAD_SQL");
      }
      var ok, ids := FindRows(conds);
      if !ok {
        return Fail("BAD_SQL");
      }
      forall a | 0 <= a < |ids| ensures 0 <= ids[a] < |rows| {
        assert ids[a] in ids;
      }
      var cells := Cells(ids, sel);
      r := Rows(ids, cells);
    }

    /** res_add for each row found. */
    method Cells(ids: seq<int>, sel: seq<nat>) returns (cells: seq<seq<(Str, Str)>>)
      requires RowsOk(sc, rows) && (forall a :: 0 <= a < |ids| ==> 0 <= ids[a] < |rows|) && forall j :: 0 <= j < |sel| ==> sel[j] < |sc.cols|
      ensures |cells| == |ids| && forall a :: 0 <= a < |ids| ==> cells[a] == Project(sc, rows[ids[a]], sel)
    {
      cells := [];
      var a := 0;
      while a < |ids|
        invariant 0 <= a == |cells| <= |ids|
        invariant forall b :: 0 <= b < a ==> cells[b] == Project(sc, rows[ids[b]], sel)
      {
        cells := cells + [Project(sc, rows[ids[a]], sel)];
        a := a + 1;
      }
    }

    method SelectCols(all: bool, names: seq<Str>) returns (ok: bool, sel: seq<nat>)
      ensures ok <==> all || forall j :: 0 <= j < |names| ==> ColIdx(sc.cols, names[j]) >= 0
      ensures ok ==> |sel| == if all then |sc.cols| else |names|
      ensures ok ==> forall j :: 0 <= j < |sel| ==> sel[j] < |sc.cols| && sel[j] == if all then j else ColIdx(sc.cols, names[j])
    {
      sel := [];
      var i := 0;
      if all {
        while i < |sc.cols|
          invariant 0 <= i == |sel| <= |sc.cols| && forall j :: 0 <= j < i ==> sel[j] == j
        {
          sel := sel + [i];
          i := i + 1;
        }
        return true, sel;
      }
      while i < |names|
        invariant 0 <= i == |sel| <= |names|
        invariant forall j :: 0 <= j < i ==> sel[j] < |sc.cols| && sel[j] == ColIdx(sc.cols, names[j])
      {
        var c := FindCol(names[i]);
        if c < 0 {
          return false, sel;
        }
        sel := sel + [c];
        i := i + 1;
      }
      ok := true;
    }

    // -------------------------------------------------------- INSERT

    /** The loop of split_csv. */
    method Split(text: Str) returns (vals: seq<Str>)
      requires sc.rec > 0
      ensures vals == SplitCsv(text, sc.rec)
    {
      var buf := Cut(text, sc.rec);
      vals := [];
      var i, cur, quoted := 0, [], false;
      SplitStart(buf);
      while i < |buf| && |vals| + 1 < MAX_COLS
        invariant 0 <= i <= |buf| && |vals| < MAX_COLS && SplitSoFar(buf, i, vals, cur, quoted) == true
      {
        SplitStep(buf, i, vals, cur, quoted);
        if buf[i] == '\'' {
          quoted := !quoted;
        }
        if buf[i] == ',' && !quoted {
          vals := vals + [cur];
          cur := [];
        } else {
          cur := cur + [buf[i]];
        }
        i := i + 1;
      }
      SplitEnd(buf, i, vals, cur, quoted);
      vals := vals + [cur + buf[i..]];
    }

    /** row_new. */
    method MakeRow(vals: seq<Str>) returns (n: NewRow)
      requires Sized(sc) && sc.pk >= 0
      modifies this`nextId
      ensures n == RowNew(sc, vals, old(nextId)) && nextId == n.next
      ensures n.Made? && LONG_MIN <= old(nextId) < LONG_END ==> LONG_MIN <= n.id < LONG_END
    {
      if |vals| != |sc.cols| && !(sc.pk == 0 && |vals| == |sc.cols| - 1) {
        return BadRow(nextId);
      }
      var id := TakeId(vals);
      if id.None? {
        return BadRow(nextId);
      }
      var row := MakeCells(vals, id.value);
      n := if row.None? then BadRow(nextId) else Made(row.value, id.value, nextId);
    }

    /** The id part of row_new: automatic, given, or not a number. */
    method TakeId(vals: seq<Str>) returns (id: Option<int>)
      requires Sized(sc) && sc.pk >= 0 && CountOk(sc, vals)
      modifies this`nextId
      ensures id == if AutoId(sc, vals) then Some(old(nextId)) else ParseL(vals[sc.pk])
      ensures nextId == if id.Some? && id.value >= old(nextId) then id.value + 1 else old(nextId)
    {
      if |vals| != |sc.cols| || vals[sc.pk] == [] || Norm(vals[sc.pk], sc.rec) == Norm(Null, sc.rec) {
        id := Some(nextId);
        nextId := nextId + 1;
      } else {
        id := ParseL(vals[sc.pk]);
        if id.Some? && id.value >= nextId {
          nextId := id.value + 1;
        }
      }
    }

    /** The column loop of row_new. */
    method MakeCells(vals: seq<Str>, id: int) returns (r: Option<Row>)
      requires Sized(sc) && sc.pk >= 0 && CountOk(sc, vals)
      ensures r == if Filled(sc, CellsOf(sc, vals, id)) then Some(CellsOf(sc, vals, id)) else None
    {
      ghost var all := CellsOf(sc, vals, id);
      var row, i := [], 0;
      while i < |sc.cols|
        invariant 0 <= i <= |sc.cols| && row == all[..i] && FilledTo(sc, all, i) == true
      {
        var v := CellOf(sc, vals, id, i);
        FilledNext(sc, all, i);
        if sc.cols[i].kind == NN && v == [] {
          return None;
        }
        row := row + [v];
        i := i + 1;
      }
      FilledAll(sc, all, row);
      r := Some(row);
    }

    /** chk_dup_pk. */
    method ChkDupPk(key: int) returns (dup: bool)
      requires Valid() && sc.pk >= 0 && LONG_MIN <= key < LONG_END
      ensures dup <==> Some(key) in PkKeys(sc, rows)
    {
      var row;
      dup, row := Find(pk, key, LONG_MIN, LONG_END);
      ghost var ks := PkKeys(sc, rows);
      assert ks[..|rows|] == ks;
      IndexedAt(ks, Index(pk), key);
    }

    /** chk_dup_uk on a UK column: another row has the text. */
    method ChkDupUk(c: nat, val: Str, skip: int) returns (dup: bool)
      requires Valid() && c < |sc.cols|
      ensures dup <==> UkSlot(sc.uks, c) >= 0 && !TextFree(sc, rows, c, val, skip)
    {
      var s := UkSlot(sc.uks, c);
      if s < 0 || val == [] {
        return false;
      }
      var found, row := Find(uks[s], Rank(Norm(val, sc.rec), sc.rec), 0, Pow(sc.rec));
      dup := found && row != skip;
      assert UkHolds(sc, rows, s, |rows|, UkMaps()[s]);
      TextSearched(sc, rows, s, val, skip, Index(uks[s]));
    }

    /** ins_do: on success the new row is the last one and its keys are indexed; then the
        indexes still match the rows exactly when the id field reads the same before and
        after it is trimmed.  On failure the rows are as before. */
    method Insert(text: Str) returns (w: Write)
      requires Valid() == true && sc.pk >= 0 && LONG_MIN <= nextId < LONG_END
      modifies this, pk, uks
      ensures w.Done? <==> Accepts(sc, old(rows), RowNew(sc, SplitCsv(text, sc.rec), old(nextId))) == true
      ensures w.Done? ==> var n := RowNew(sc, SplitCsv(text, sc.rec), old(nextId));
                          rows == old(rows) + [n.row] && nextId == n.next && w == Done(1, n.id)
      ensures w.Done? ==> CountOk(sc, SplitCsv(text, sc.rec)) && (Valid() <==> IdReads(sc, SplitCsv(text, sc.rec)))
      ensures w.Failed? ==> rows == old(rows) && Valid() == true
      ensures Exec(sc, old(Value()), InsertStmt(text)) == if w.Done? then Some(Value()) else None
    {
      var vals := Split(text);
      w := InsertVals(vals);
    }

    /** ins_do on the fields. */
    method InsertVals(vals: seq<Str>) returns (w: Write)
      requires Valid() == true && sc.pk >= 0 && LONG_MIN <= nextId < LONG_END
      modifies this, pk, uks
      ensures w.Done? <==> Accepts(sc, old(rows), RowNew(sc, vals, old(nextId))) == true
      ensures w.Done? ==> var n := RowNew(sc, vals, old(nextId));
                          rows == old(rows) + [n.row] && nextId == n.next && w == Done(1, n.id)
      ensures w.Done? ==> CountOk(sc, vals) && Valid() == IdReads(sc, vals)
      ensures w.Failed? ==> rows == old(rows) && Valid() == true
    {
      if |rows| >= MAX_RECORDS {
        return Failed("BAD_REQ");
      }
      w := InsertRow(vals);
    }

    /** ins_do once there is room. */
    method InsertRow(vals: seq<Str>) returns (w: Write)
      requires Valid() == true && sc.pk >= 0 && LONG_MIN <= nextId < LONG_END && |rows| < MAX_RECORDS
      modifies this, pk, uks
      ensures w.Done? == Accepts(sc, old(rows), RowNew(sc, vals, old(nextId)))
      ensures w.Done? ==> var n := RowNew(sc, vals, old(nextId));
                          rows == old(rows) + [n.row] && nextId == n.next && w == Done(1, n.id)
      ensures w.Done? ==> CountOk(sc, vals) && Valid() == IdReads(sc, vals)
      ensures w.Failed? ==> rows == old(rows) && Valid() == true
    {
      var n := MakeRow(vals);
      if n.BadRow? {
        return Failed("BAD_SQL");
      }
      NewRowKeyIff(sc, vals, old(nextId));
      w := InsertMade(n, IdReads(sc, vals));
    }

    /** ins_do once row_new has made the row. */
    method InsertMade(n: NewRow, ghost same: bool) returns (w: Write)
      requires Valid() == true && sc.pk >= 0 && n.Made? && |n.row| == |sc.cols| && LONG_MIN <= n.id < LONG_END && |rows| < MAX_RECORDS
      requires same == (PkKey(sc, n.row) == Some(n.id))
      modifies this`rows, pk, uks
      ensures w.Done? <==> Accepts(sc, old(rows), n) == true
      ensures w.Done? ==> rows == old(rows) + [n.row] && w == Done(1, n.id) && Valid() == same
      ensures w.Failed? ==> rows == old(rows) && Valid() == true
    {
      var dup := ChkDupPk(n.id);
      if dup {
        return Failed("BAD_SQL");
      }
      var ok := NewTexts(n.row);
      if !ok {
        return Failed("BAD_SQL");
      }
      Append(n.row, n.id);
      w := Done(1, n.id);
    }

    /** The UK checks of ins_do. */
    method NewTexts(row: Row) returns (ok: bool)
      requires Valid() == true && |row| == |sc.cols|
      ensures ok == TextsFree(sc, rows, row, |sc.uks|)
    {
      var j := 0;
      while j < |sc.uks|
        invariant 0 <= j <= |sc.uks| && TextsFree(sc, rows, row, j) == true
      {
        var dup := ChkDupUk(sc.uks[j], row[sc.uks[j]], -1);
        TextsNext(sc, rows, row, j);
        if dup {
          return false;
        }
        j := j + 1;
      }
      ok := true;
    }

    /** The last part of ins_do, for a row whose keys are free: no insertion into a tree
        can fail. */
    method Append(row: Row, id: int)
      requires Valid() == true && sc.pk >= 0 && |row| == |sc.cols| && LONG_MIN <= id < LONG_END && Some(id) !in PkKeys(sc, rows)
      requires TextsFree(sc, rows, row, |sc.uks|) == true
      modifies this`rows, pk, uks
      ensures rows == old(rows) + [row] && Valid() == (PkKey(sc, row) == Some(id))
    {
      AppendFacts(sc, rows, row, Index(pk), UkMaps());
      rows := rows + [row];
      IndexNew(row, id, old(rows));
    }

    /** The tree insertions of ins_do. */
    method IndexNew(row: Row, id: int, ghost was: seq<Row>)
      requires Trees() == true && sc.pk >= 0 && RowsOk(sc, was) == true && |row| == |sc.cols| && rows == was + [row] && RowsOk(sc, rows) == true
      requires PkHolds(sc, was, |was|, Index(pk)) == true && PkHolds(sc, rows, |was|, Index(pk)) == true && UksHold(sc, rows, UkMaps(), |was|, 0) == true
      requires LONG_MIN <= id < LONG_END && Some(id) !in PkKeys(sc, was) && UksUnique(sc, rows) == true
      modifies pk, uks
      ensures Trees() == true && UksHold(sc, rows, UkMaps(), |rows|, 0) == true
      ensures PkHolds(sc, rows, |rows|, Index(pk)) == (PkKey(sc, row) == Some(id))
    {
      PutNew(row, id, was);
      var i := |rows| - 1;
      assert i == |was|;
      var ok := AddUks(i, |rows|);
    }

    method PutNew(row: Row, id: int, ghost was: seq<Row>)
      requires Trees() == true && sc.pk >= 0 && RowsOk(sc, was) == true && |row| == |sc.cols| && rows == was + [row] && RowsOk(sc, rows) == true
      requires PkHolds(sc, was, |was|, Index(pk)) == true && PkHolds(sc, rows, |was|, Index(pk)) == true && LONG_MIN <= id < LONG_END && Some(id) !in PkKeys(sc, was)
      modifies pk
      ensures Trees() == true && UkMaps() == old(UkMaps())
      ensures PkHolds(sc, rows, |rows|, Index(pk)) == (PkKey(sc, row) == Some(id))
    {
      ghost var ks := PkKeys(sc, was);
      assert ks[..|was|] == ks;
      IndexedAt(ks, Index(pk), id);
      var ok := PutPk(Some(id), |rows| - 1, PkKeys(sc, rows)[..|was|]);
      AppendedPk(sc, was, row, id, Index(pk));
    }

    // -------------------------------------------------------- UPDATE

    /** The rows after an UPDATE. */
    ghost function AfterUpdate(conds: seq<Cond>, c: nat, v: Str): (r: seq<Row>)
      requires Sized(sc) && RowsOk(sc, rows) && c < |sc.cols|
      reads this`rows
      ensures RowsOk(sc, r)
    {
      Updated(rows, Flags(sc, conds, rows), c, v)
    }

    /** upd_do: it succeeds exactly when the column may be set and the updated rows keep
        the keys unique; a clash is found by the check beforehand or, when several rows
        get one UK value, by the rebuild. */
    method Update(setCol: Str, setVal: Str, conds: seq<Cond>) returns (w: Write)
      requires Valid() == true
      modifies this
      ensures var c, v := ColIdx(sc.cols, setCol), Norm(setVal, 256);
              w.Done? <==> UpdateOk(sc, conds, c, v) && Indexable(sc, old(AfterUpdate(conds, c, v))) == true
      ensures var c, v := ColIdx(sc.cols, setCol), Norm(setVal, 256);
              w.Done? ==> rows == old(AfterUpdate(conds, c, v)) && w == Done(Hits(Flags(sc, conds, old(rows)), |old(rows)|), 0)
      ensures w.Done? ==> Valid() == true
      ensures nextId == old(nextId)
      ensures sc.pk >= 0 ==> Exec(sc, old(Value()), UpdateStmt(setCol, setVal, conds)) == if w.Done? then Some(Value()) else None
    {
      if conds == [] {
        return Failed("BAD_SQL");
      }
      var c := FindCol(setCol);
      var v := Norm(setVal, 256);
      if c < 0 || c == sc.pk || (sc.cols[c].kind == NN && v == []) {
        return Failed("BAD_SQL");
      }
      w := UpdateCol(conds, c, v);
    }

    method UpdateCol(conds: seq<Cond>, c: nat, v: Str) returns (w: Write)
      requires Valid() == true && c < |sc.cols|
      modifies this
      ensures w.Done? <==> Indexable(sc, old(AfterUpdate(conds, c, v))) == true
      ensures w.Done? ==> rows == old(AfterUpdate(conds, c, v)) && w == Done(Hits(Flags(sc, conds, old(rows)), |old(rows)|), 0)
      ensures w.Done? ==> Valid() == true
      ensures nextId == old(nextId)
    {
      var ok := PreCheck(conds, c, v);
      if !ok {
        ClashIndexable(sc, rows, Flags(sc, conds, rows), c, v);
        return Failed("BAD_SQL");
      }
      w := UpdateRows(conds, c, v);
    }

    /** The rest of upd_do after the check. */
    method UpdateRows(conds: seq<Cond>, c: nat, v: Str) returns (w: Write)
      requires Valid() == true && c < |sc.cols|
      modifies this`rows, this`pk, this`uks
      ensures w.Done? <==> Indexable(sc, old(AfterUpdate(conds, c, v))) == true
      ensures w.Done? ==> rows == old(AfterUpdate(conds, c, v)) && w == Done(Hits(Flags(sc, conds, old(rows)), |old(rows)|), 0)
      ensures w.Done? ==> Valid() == true
    {
      ghost var hit := Flags(sc, conds, rows);
      HoldsIndexable(sc, rows, Index(pk), UkMaps());
      if Hits(hit, |rows|) == 0 {
        NoUpdate(rows, hit, c, v);
      }
      var count := SetRows(conds, c, v);
      if count == 0 {
        return Done(0, 0);
      }
      w := Rebuild(count);
    }

    /** The index rebuild that ends upd_do and del_do. */
    method Rebuild(count: nat) returns (w: Write)
      requires SchemaOk(sc) == true && RowsOk(sc, rows) == true
      modifies this`pk, this`uks
      ensures w == if Indexable(sc, rows) == true then Done(count, 0) else Failed("INT_ERR")
      ensures w.Done? ==> Valid() == true
    {
      var ok := IdxBuild();
      if !ok {
        return Failed("INT_ERR");
      }
      w := Done(count, 0);
    }

    /** The first loop of upd_do. */
    method PreCheck(conds: seq<Cond>, c: nat, v: Str) returns (ok: bool)
      requires Valid() == true && c < |sc.cols|
      ensures ok <==> (sc.cols[c].kind == UK ==> NoClash(sc, rows, Flags(sc, conds, rows), c, v))
    {
      ghost var hit := Flags(sc, conds, rows);
      var i := 0;
      while i < |rows|
        invariant 0 <= i <= |rows|
        invariant sc.cols[c].kind == UK ==> forall j :: 0 <= j < i && hit[j] ==> TextFree(sc, rows, c, v, j)
      {
        var match_ := RowMatch(conds, rows[i]);
        assert match_ == hit[i];
        if match_ && sc.cols[c].kind == UK {
          var dup := ChkDupUk(c, v, i);
          if dup {
            return false;
          }
        }
        i := i + 1;
      }
      ok := true;
    }

    /** The second loop of upd_do. */
    method SetRows(conds: seq<Cond>, c: nat, v: Str) returns (count: nat)
      requires Sized(sc) && RowsOk(sc, rows) && c < |sc.cols|
      modifies this`rows
      ensures rows == old(AfterUpdate(conds, c, v)) && count == Hits(Flags(sc, conds, old(rows)), |old(rows)|)
    {
      count := 0;
      ghost var was, hit := rows, Flags(sc, conds, rows);
      var i := 0;
      while i < |rows|
        invariant 0 <= i <= |was| == |rows| && UpdatedTo(was, hit, c, v, i, rows) == true
        invariant count == Hits(hit, i)
      {
        UpdatedStep(was, hit, c, v, i, rows);
        var match_ := RowMatch(conds, rows[i]);
        assert match_ == hit[i];
        if match_ {
          rows := rows[i := rows[i][c := v]];
          count := count + 1;
        }
        i := i + 1;
      }
      UpdatedAll(was, hit, c, v, rows);
    }

    // -------------------------------------------------------- DELETE

    /** del_do: the rows that do not match stay, in order, and the rebuild never fails. */
    method Delete(conds: seq<Cond>) returns (w: Write)
      requires Valid() == true
      modifies this
      ensures w.Done? <==> conds != []
      ensures var hit := Flags(sc, conds, old(rows));
              w.Done? ==> rows == Kept(old(rows), hit, |old(rows)|) && w == Done(Hits(hit, |old(rows)|), 0)
      ensures w.Failed? ==> rows == old(rows)
      ensures Valid() == true && nextId == old(nextId)
      ensures sc.pk >= 0 ==> Exec(sc, old(Value()), DeleteStmt(conds)) == if w.Done? then Some(Value()) else None
    {
      if conds == [] {
        return Failed("BAD_SQL");
      }
      HoldsIndexable(sc, rows, Index(pk), UkMaps());
      DeleteIndexable(sc, rows, Flags(sc, conds, rows));
      var count := KeepRows(conds);
      w := Rebuild(count);
    }

    /** The loop of del_do. */
    method KeepRows(conds: seq<Cond>) returns (count: nat)
      requires Sized(sc) && RowsOk(sc, rows)
      modifies this`rows
      ensures var hit := Flags(sc, conds, old(rows)); rows == Kept(old(rows), hit, |old(rows)|) && count == Hits(hit, |old(rows)|)
    {
      ghost var hit := Flags(sc, conds, rows);
      var kept := [];
      count := 0;
      var i := 0;
      while i < |rows|
        invariant 0 <= i <= |rows| && rows == old(rows)
        invariant kept == Kept(rows, hit, i) && count == Hits(hit, i)
      {
        var match_ := RowMatch(conds, rows[i]);
        assert match_ == hit[i];
        if match_ {
          count := count + 1;
        } else {
          kept := kept + [rows[i]];
        }
        i := i + 1;
      }
      rows := kept;
    }
  }

  lemma ClashIndexable(sc: Schema, rows: seq<Row>, hit: seq<bool>, c: nat, v: Str)
    requires SchemaOk(sc) && RowsOk(sc, rows) && |hit| == |rows| && c < |sc.cols| && sc.cols[c].kind == UK && !NoClash(sc, rows, hit, c, v)
    ensures RowsOk(sc, Updated(rows, hit, c, v)) && Indexable(sc, Updated(rows, hit, c, v)) == false
  {
    ClashBreaks(sc, rows, hit, c, v);
    assert c in sc.uks;
  }

  /** Looking a text up in a UK tree finds the row that has it; the empty text is never
      found. */
  lemma TextSearched(sc: Schema, rows: seq<Row>, s: nat, val: Str, skip: int, m: map<int, int>)
    requires SchemaOk(sc) && RowsOk(sc, rows) && s < |sc.uks| && UkHolds(sc, rows, s, |rows|, m)
    ensures var k := Rank(Norm(val, sc.rec), sc.rec);
            (k in m && m[k] != skip) <==> !TextFree(sc, rows, sc.uks[s], val, skip)
  {
    var k, ks := Rank(Norm(val, sc.rec), sc.rec), UkKeys(sc, sc.uks[s], rows);
    assert ks[..|rows|] == ks;
    IndexedAt(ks, m, k);
    if k in m {
      UkKeyAt(sc, rows, sc.uks[s], m[k]);
      if Norm(val, sc.rec) == [] {
        RankOrder([], Norm(rows[m[k]][sc.uks[s]], sc.rec), sc.rec);
      }
    }
    forall r | 0 <= r < |rows| ensures ks[r] == TextKey(rows[r][sc.uks[s]], sc.rec) {
      UkKeyAt(sc, rows, sc.uks[s], r);
    }
  }
}