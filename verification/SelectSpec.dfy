/** Choosing an index for a SELECT, and why the rows it leads to are the rows a full
    scan would keep (src/db/dbapi.c:422-555). */
module SelectSpec {
  import opened Basics
  import opened Text
  import opened EngineSpec
  import opened BTreeSpec

  /** uk_slot. */
  function UkSlot(uks: seq<nat>, c: int): (j: int)
    ensures -1 <= j < |uks|
    ensures j >= 0 ==> uks[j] == c
    ensures j == -1 ==> forall k :: 0 <= k < |uks| ==> uks[k] != c
  {
    if uks == [] then -1
    else if uks[0] == c then 0
    else
      var j := UkSlot(uks[1..], c);
      assert forall k :: 1 <= k < |uks| ==> uks[k] == uks[1..][k - 1];
      if j < 0 then -1 else j + 1
  }

  /** How well a condition is served by an index; 0 for not at all. */
  function Score(sc: Schema, c: Cond): nat {
    var i := ColIdx(sc.cols, c.col);
    if i < 0 then 0
    else if c.Eq? && i == sc.pk then 100
    else if c.Eq? && UkSlot(sc.uks, i) >= 0 then 90
    else if c.Between? && i == sc.pk then 80
    else if c.Between? && UkSlot(sc.uks, i) >= 0 then 70
    else 0
  }

  /** pick_idx: the first of the best served conditions, -1 if none is served. */
  function Pick(sc: Schema, conds: seq<Cond>): (i: int)
    ensures -1 <= i < |conds|
    ensures i >= 0 ==> Score(sc, conds[i]) > 0
    ensures i >= 0 ==> forall j :: 0 <= j < |conds| ==> Score(sc, conds[j]) <= Score(sc, conds[i])
    ensures i >= 0 ==> forall j :: 0 <= j < i ==> Score(sc, conds[j]) < Score(sc, conds[i])
    ensures i == -1 ==> forall j :: 0 <= j < |conds| ==> Score(sc, conds[j]) == 0
  {
    if conds == [] then -1
    else
      var n := |conds| - 1;
      var i := Pick(sc, conds[..n]);
      assert forall j :: 0 <= j < n ==> conds[..n][j] == conds[j];
      if Score(sc, conds[n]) > (if i < 0 then 0 else Score(sc, conds[i])) then n else i
  }

  lemma PickStep(sc: Schema, conds: seq<Cond>, i: nat)
    requires i < |conds|
    ensures Pick(sc, conds[..i + 1]) == var b := Pick(sc, conds[..i]);
              if Score(sc, conds[i]) > (if b < 0 then 0 else Score(sc, conds[b])) then i else b
  {
    assert conds[..i + 1][..i] == conds[..i];
  }

  /** How sel_do finds rows. */
  datatype Path = Scan | PkEq(val: Str) | UkEq(slot: nat, val: Str) | PkSpan(lo: Str, hi: Str) | UkSpan(slot: nat, lo: Str, hi: Str)

  function PathAt(sc: Schema, conds: seq<Cond>, i: int): (p: Path)
    requires i == Pick(sc, conds)
    ensures (p.UkEq? || p.UkSpan?) ==> p.slot < |sc.uks|
  {
    if i < 0 then Scan else CondPath(sc, conds[i])
  }

  function PathOf(sc: Schema, conds: seq<Cond>): (p: Path)
    ensures (p.UkEq? || p.UkSpan?) ==> p.slot < |sc.uks|
  {
    PathAt(sc, conds, Pick(sc, conds))
  }

  /** Whether the statement is refused for its bounds. */
  predicate PathOk(p: Path) {
    match p
    case PkEq(v) => ParseL(v).Some?
    case PkSpan(lo, hi) => ParseL(lo).Some? && ParseL(hi).Some?
    case _ => true
  }

  /** Whether the index can lead to a row at all: rows with an empty UK are in no UK
      tree, and the PK tree knows a row by its number. */
  ghost predicate Reached(sc: Schema, p: Path, row: Row)
    requires SchemaOk(sc) && |row| == |sc.cols| && ((p.UkEq? || p.UkSpan?) ==> p.slot < |sc.uks|)
  {
    match p
    case PkEq(v) => sc.pk >= 0 && PkKey(sc, row) == ParseL(v)
    case UkEq(s, _) => TextKey(row[sc.uks[s]], sc.rec).Some?
    case UkSpan(s, _, _) => TextKey(row[sc.uks[s]], sc.rec).Some?
    case _ => true
  }

  /** The list holds exactly the matching rows the path reaches, each once. */
  ghost predicate Answers(sc: Schema, conds: seq<Cond>, p: Path, rows: seq<Row>, ids: seq<int>)
    requires SchemaOk(sc) && RowsOk(sc, rows) && ((p.UkEq? || p.UkSpan?) ==> p.slot < |sc.uks|)
  {
    && (forall r :: r in ids <==> 0 <= r < |rows| && Matches(sc, conds, rows[r]) && Reached(sc, p, rows[r]))
    && (forall a, b :: 0 <= a < b < |ids| ==> ids[a] != ids[b])
  }

  /** What the rows of an answer are ordered by. */
  ghost predicate InOrder(sc: Schema, p: Path, rows: seq<Row>, ids: seq<int>)
    requires SchemaOk(sc) && RowsOk(sc, rows) && ((p.UkEq? || p.UkSpan?) ==> p.slot < |sc.uks|)
  {
    forall a, b :: 0 <= a < b < |ids| && 0 <= ids[a] < |rows| && 0 <= ids[b] < |rows| ==>
      match p
      case PkSpan(_, _) => sc.pk >= 0 && KeyBefore(PkKey(sc, rows[ids[a]]), PkKey(sc, rows[ids[b]]))
      case UkSpan(s, _, _) => Less(Norm(rows[ids[a]][sc.uks[s]], sc.rec), Norm(rows[ids[b]][sc.uks[s]], sc.rec))
      case _ => ids[a] < ids[b]
  }

  predicate KeyBefore(a: Option<int>, b: Option<int>) {
    a.Some? && b.Some? && a.value < b.value
  }

  // ------------------------------------------------------------ pairs of a tree

  /** The rows of the visited pairs that sel_vis keeps. */
  function Keep(sc: Schema, conds: seq<Cond>, rows: seq<Row>, ps: Pairs): (ids: seq<int>)
    requires SchemaOk(sc) && RowsOk(sc, rows)
  {
    if ps == [] then []
    else
      var n := |ps| - 1;
      var r := ps[n].1;
      Keep(sc, conds, rows, ps[..n]) + if 0 <= r < |rows| && Matches(sc, conds, rows[r]) then [r] else []
  }

  lemma {:induction false} RangeMembers(s: Pairs, x: int, y: int)
    ensures forall p :: p in Range(s, x, y) <==> p in s && x <= p.0 <= y
  {
    if s != [] {
      RangeMembers(s[1..], x, y);
      assert s == [s[0]] + s[1..];
    }
  }

  lemma {:induction false} RangeSorted(s: Pairs, x: int, y: int)
    requires SortedPairs(s)
    ensures SortedPairs(Range(s, x, y))
  {
    if s != [] {
      RangeSorted(s[1..], x, y);
      RangeMembers(s[1..], x, y);
      var r := Range(s[1..], x, y);
      forall i | 0 <= i < |r| ensures s[0].0 < r[i].0 {
        assert r[i] in s[1..];
      }
    }
  }

  lemma {:induction false} MapMembers(s: Pairs)
    requires SortedPairs(s)
    ensures forall p :: p in s <==> p.0 in ToMap(s) && ToMap(s)[p.0] == p.1
  {
    if s != [] {
      MapMembers(s[1..]);
      assert s == [s[0]] + s[1..];
      forall p | p in s[1..] ensures p.0 != s[0].0 {
        var i :| 0 <= i < |s[1..]| && s[1..][i] == p;
        assert s[i + 1] == p;
      }
    }
  }

  /** The entries of an index in a span, in key order. */
  ghost predicate SpanOf(ps: Pairs, m: map<int, int>, lo: int, hi: int) {
    && SortedPairs(ps)
    && (forall p :: p in ps ==> p.0 in m && m[p.0] == p.1 && lo <= p.0 <= hi)
    && (forall k :: k in m && lo <= k <= hi ==> (k, m[k]) in ps)
  }

  lemma RangeIsSpan(s: Pairs, lo: int, hi: int)
    requires SortedPairs(s)
    ensures SpanOf(Range(s, lo, hi), ToMap(s), lo, hi) == true
  {
    RangeMembers(s, lo, hi);
    RangeSorted(s, lo, hi);
    MapMembers(s);
    forall k | k in ToMap(s) && lo <= k <= hi ensures (k, ToMap(s)[k]) in Range(s, lo, hi) {
      assert (k, ToMap(s)[k]) in s;
    }
  }

  ghost predicate InPairs(ps: Pairs, r: int) {
    exists i :: 0 <= i < |ps| && ps[i].1 == r
  }

  lemma InPairsPrefix(ps: Pairs, r: int)
    requires ps != []
    ensures InPairs(ps, r) <==> InPairs(ps[..|ps| - 1], r) || ps[|ps| - 1].1 == r
  {
    if InPairs(ps[..|ps| - 1], r) {
      var i :| 0 <= i < |ps| - 1 && ps[..|ps| - 1][i].1 == r;
      assert ps[i].1 == r;
    }
    if InPairs(ps, r) {
      var i :| 0 <= i < |ps| && ps[i].1 == r;
      assert i < |ps| - 1 ==> ps[..|ps| - 1][i].1 == r;
    }
  }

  /** Keep has exactly the matching rows of the pairs. */
  lemma {:induction false} KeepMembers(sc: Schema, conds: seq<Cond>, rows: seq<Row>, ps: Pairs)
    requires SchemaOk(sc) && RowsOk(sc, rows)
    ensures forall r :: r in Keep(sc, conds, rows, ps) <==> 0 <= r < |rows| && Matches(sc, conds, rows[r]) && InPairs(ps, r)
  {
    if ps != [] {
      KeepMembers(sc, conds, rows, ps[..|ps| - 1]);
      forall r ensures InPairs(ps, r) <==> InPairs(ps[..|ps| - 1], r) || ps[|ps| - 1].1 == r {
        InPairsPrefix(ps, r);
      }
    }
  }

  // ------------------------------------------------------------ the paths

  /** Pairs that agree with an index: row p.1 has key p.0. */
  ghost predicate Agree(ps: Pairs, ks: seq<Option<int>>) {
    forall i :: 0 <= i < |ps| ==> 0 <= ps[i].1 < |ks| && ks[ps[i].1] == Some(ps[i].0)
  }

  lemma SpanAgrees(ps: Pairs, ks: seq<Option<int>>, m: map<int, int>, lo: int, hi: int)
    requires Indexed(ks, m) && SpanOf(ps, m, lo, hi)
    ensures Agree(ps, ks)
  {
    forall i | 0 <= i < |ps| ensures 0 <= ps[i].1 < |ks| && ks[ps[i].1] == Some(ps[i].0) {
      var k := ps[i].0;
      assert ps[i] in ps && k in m;
    }
  }

  ghost predicate Bounded(ids: seq<int>, ks: seq<Option<int>>, hi: int) {
    forall a :: 0 <= a < |ids| ==> 0 <= ids[a] < |ks| && ks[ids[a]].Some? && ks[ids[a]].value <= hi
  }

  ghost predicate Ascending(ids: seq<int>, ks: seq<Option<int>>) {
    && (forall a :: 0 <= a < |ids| ==> 0 <= ids[a] < |ks|)
    && (forall a, b :: 0 <= a < b < |ids| ==> KeyBefore(ks[ids[a]], ks[ids[b]]))
  }

  lemma AscendingPush(ids: seq<int>, ks: seq<Option<int>>, hi: int, r: int)
    requires Ascending(ids, ks) && Bounded(ids, ks, hi) && 0 <= r < |ks| && ks[r].Some? && hi < ks[r].value
    ensures Ascending(ids + [r], ks) && Bounded(ids + [r], ks, ks[r].value)
  {
    forall a, b | 0 <= a < b < |ids + [r]| ensures KeyBefore(ks[(ids + [r])[a]], ks[(ids + [r])[b]]) {
      assert (ids + [r])[a] == ids[a];
    }
  }

  /** Rows taken from pairs in key order are in key order. */
  lemma {:induction false} KeepOrdered(sc: Schema, conds: seq<Cond>, rows: seq<Row>, ps: Pairs, ks: seq<Option<int>>)
    requires SchemaOk(sc) && RowsOk(sc, rows) && Agree(ps, ks) && SortedPairs(ps)
    ensures Ascending(Keep(sc, conds, rows, ps), ks)
    ensures ps != [] ==> Bounded(Keep(sc, conds, rows, ps), ks, ps[|ps| - 1].0)
  {
    if ps != [] {
      var n := |ps| - 1;
      var ids := Keep(sc, conds, rows, ps[..n]);
      assert Agree(ps[..n], ks);
      KeepOrdered(sc, conds, rows, ps[..n], ks);
      assert 0 <= ps[n].1 < |ks| && ks[ps[n].1] == Some(ps[n].0);
      var hi := if n > 0 then ps[n - 1].0 else ps[n].0 - 1;
      assert n > 0 ==> ps[..n][n - 1] == ps[n - 1] && ps[n - 1].0 < ps[n].0;
      assert n == 0 ==> ids == [];
      assert Bounded(ids, ks, hi);
      AscendingPush(ids, ks, hi, ps[n].1);
      assert Bounded(ids, ks, ps[n].0);
    }
  }

  /** What the chosen condition says of a row. */
  ghost predicate PathHolds(sc: Schema, p: Path, row: Row)
    requires SchemaOk(sc) && |row| == |sc.cols| && ((p.UkEq? || p.UkSpan?) ==> p.slot < |sc.uks|)
  {
    match p
    case Scan => true
    case PkEq(v) => sc.pk >= 0 && Same(row[sc.pk], v, sc.rec)
    case UkEq(s, v) => Same(row[sc.uks[s]], v, sc.rec)
    case PkSpan(lo, hi) => sc.pk >= 0 && NumSpan(row[sc.pk], lo, hi)
    case UkSpan(s, lo, hi) => InSpan(row[sc.uks[s]], lo, hi, sc.rec)
  }

  /** A row that matches meets the chosen condition. */
  lemma PathMeaning(sc: Schema, conds: seq<Cond>, row: Row)
    requires SchemaOk(sc) && |row| == |sc.cols| && Matches(sc, conds, row)
    ensures PathHolds(sc, PathOf(sc, conds), row) == true
  {
    var i := Pick(sc, conds);
    if i >= 0 {
      assert Holds(sc, conds[i], row);
      CondMeaning(sc, conds[i], row);
    }
  }

  /** The path of one condition. */
  function CondPath(sc: Schema, c: Cond): (p: Path)
    requires Score(sc, c) > 0
    ensures (p.UkEq? || p.UkSpan?) ==> p.slot < |sc.uks|
  {
    var i := ColIdx(sc.cols, c.col);
    match c
    case Eq(_, v) => if i == sc.pk then PkEq(v) else UkEq(UkSlot(sc.uks, i), v)
    case Between(_, lo, hi) => if i == sc.pk then PkSpan(lo, hi) else UkSpan(UkSlot(sc.uks, i), lo, hi)
  }

  lemma CondMeaning(sc: Schema, c: Cond, row: Row)
    requires SchemaOk(sc) && |row| == |sc.cols| && Score(sc, c) > 0 && Holds(sc, c, row)
    ensures PathHolds(sc, CondPath(sc, c), row) == true
  {
  }

  /** Every matching row meets the path's condition. */
  ghost predicate PathOn(sc: Schema, conds: seq<Cond>, p: Path, rows: seq<Row>)
    requires SchemaOk(sc) && RowsOk(sc, rows)
  {
    && ((p.UkEq? || p.UkSpan?) ==> p.slot < |sc.uks|) && ((p.PkEq? || p.PkSpan?) ==> sc.pk >= 0)
    && forall r :: 0 <= r < |rows| && Matches(sc, conds, rows[r]) ==> PathHolds(sc, p, rows[r])
  }

  lemma PathIsOn(sc: Schema, conds: seq<Cond>, rows: seq<Row>)
    requires SchemaOk(sc) && RowsOk(sc, rows)
    ensures PathOn(sc, conds, PathOf(sc, conds), rows) == true
  {
    forall r | 0 <= r < |rows| && Matches(sc, conds, rows[r]) ensures PathHolds(sc, PathOf(sc, conds), rows[r]) {
      PathMeaning(sc, conds, rows[r]);
    }
  }

  /** Visiting the pairs of a span answers for a path that reaches, of the matching rows,
      just those in the pairs. */
  lemma SpanAnswers(sc: Schema, conds: seq<Cond>, p: Path, rows: seq<Row>, ks: seq<Option<int>>, ps: Pairs)
    requires SchemaOk(sc) && RowsOk(sc, rows) && ((p.UkEq? || p.UkSpan?) ==> p.slot < |sc.uks|)
    requires Ascending(Keep(sc, conds, rows, ps), ks)
    requires forall r :: 0 <= r < |rows| && Matches(sc, conds, rows[r]) ==> (Reached(sc, p, rows[r]) <==> InPairs(ps, r))
    ensures Answers(sc, conds, p, rows, Keep(sc, conds, rows, ps)) == true
  {
    KeepMembers(sc, conds, rows, ps);
    var ids := Keep(sc, conds, rows, ps);
    forall a, b | 0 <= a < b < |ids| ensures ids[a] != ids[b] {
      assert KeyBefore(ks[ids[a]], ks[ids[b]]);
    }
  }

  lemma SpanFinds(ks: seq<Option<int>>, m: map<int, int>, lo: int, hi: int, ps: Pairs, r: nat)
    requires Indexed(ks, m) && SpanOf(ps, m, lo, hi) && r < |ks| && ks[r].Some? && lo <= ks[r].value <= hi
    ensures InPairs(ps, r)
  {
    var k := ks[r].value;
    assert k in m && (k, m[k]) in ps;
  }

  lemma PkSpanAnswers(sc: Schema, conds: seq<Cond>, rows: seq<Row>, m: map<int, int>, lo: Str, hi: Str, ps: Pairs)
    requires SchemaOk(sc) && RowsOk(sc, rows) && PathOn(sc, conds, PkSpan(lo, hi), rows) && PkHolds(sc, rows, |rows|, m) && PathOk(PkSpan(lo, hi))
    requires SpanOf(ps, m, ParseL(lo).value, ParseL(hi).value) == true
    ensures Answers(sc, conds, PkSpan(lo, hi), rows, Keep(sc, conds, rows, ps)) == true
    ensures InOrder(sc, PkSpan(lo, hi), rows, Keep(sc, conds, rows, ps)) == true
  {
    var ks := PkKeys(sc, rows);
    assert ks[..|rows|] == ks;
    SpanAgrees(ps, ks, m, ParseL(lo).value, ParseL(hi).value);
    KeepOrdered(sc, conds, rows, ps, ks);
    forall r | 0 <= r < |rows| && Matches(sc, conds, rows[r]) ensures InPairs(ps, r) {
      assert PathHolds(sc, PkSpan(lo, hi), rows[r]);
      PkKeyAt(sc, rows, r);
      SpanFinds(ks, m, ParseL(lo).value, ParseL(hi).value, ps, r);
    }
    SpanAnswers(sc, conds, PkSpan(lo, hi), rows, ks, ps);
    PkSpanOrder(sc, rows, lo, hi, ks, Keep(sc, conds, rows, ps));
  }

  lemma PkSpanOrder(sc: Schema, rows: seq<Row>, lo: Str, hi: Str, ks: seq<Option<int>>, ids: seq<int>)
    requires SchemaOk(sc) && RowsOk(sc, rows) && sc.pk >= 0 && ks == PkKeys(sc, rows) && Ascending(ids, ks)
    ensures InOrder(sc, PkSpan(lo, hi), rows, ids) == true
  {
  }

  lemma UkSpanKeys(v: Str, lo: Str, hi: Str, rec: nat)
    requires rec > 0 && InSpan(v, lo, hi, rec)
    ensures Rank(Norm(lo, rec), rec) <= Rank(Norm(v, rec), rec) <= Rank(Norm(hi, rec), rec)
  {
    RankOrder(Norm(lo, rec), Norm(v, rec), rec);
    RankOrder(Norm(v, rec), Norm(hi, rec), rec);
  }

  lemma UkSpanAnswers(sc: Schema, conds: seq<Cond>, rows: seq<Row>, m: map<int, int>, s: nat, lo: Str, hi: Str, ps: Pairs)
    requires SchemaOk(sc) && RowsOk(sc, rows) && PathOn(sc, conds, UkSpan(s, lo, hi), rows) && UkHolds(sc, rows, s, |rows|, m)
    requires SpanOf(ps, m, Rank(Norm(lo, sc.rec), sc.rec), Rank(Norm(hi, sc.rec), sc.rec)) == true
    ensures Answers(sc, conds, UkSpan(s, lo, hi), rows, Keep(sc, conds, rows, ps)) == true
    ensures InOrder(sc, UkSpan(s, lo, hi), rows, Keep(sc, conds, rows, ps)) == true
  {
    var ks := UkKeys(sc, sc.uks[s], rows);
    assert ks[..|rows|] == ks;
    SpanAgrees(ps, ks, m, Rank(Norm(lo, sc.rec), sc.rec), Rank(Norm(hi, sc.rec), sc.rec));
    KeepOrdered(sc, conds, rows, ps, ks);
    forall r | 0 <= r < |rows| && Matches(sc, conds, rows[r]) ensures ks[r].Some? <==> InPairs(ps, r) {
      assert PathHolds(sc, UkSpan(s, lo, hi), rows[r]);
      UkKeyAt(sc, rows, sc.uks[s], r);
      if ks[r].Some? {
        UkSpanKeys(rows[r][sc.uks[s]], lo, hi, sc.rec);
        SpanFinds(ks, m, Rank(Norm(lo, sc.rec), sc.rec), Rank(Norm(hi, sc.rec), sc.rec), ps, r);
      }
    }
    SpanAnswers(sc, conds, UkSpan(s, lo, hi), rows, ks, ps);
    UkSpanOrder(sc, rows, s, lo, hi, ks, Keep(sc, conds, rows, ps));
  }

  lemma UkSpanOrder(sc: Schema, rows: seq<Row>, s: nat, lo: Str, hi: Str, ks: seq<Option<int>>, ids: seq<int>)
    requires SchemaOk(sc) && RowsOk(sc, rows) && s < |sc.uks| && ks == UkKeys(sc, sc.uks[s], rows) && Ascending(ids, ks)
    ensures InOrder(sc, UkSpan(s, lo, hi), rows, ids) == true
  {
    forall a, b | 0 <= a < b < |ids| ensures Less(Norm(rows[ids[a]][sc.uks[s]], sc.rec), Norm(rows[ids[b]][sc.uks[s]], sc.rec)) {
      assert KeyBefore(ks[ids[a]], ks[ids[b]]);
      UkKeyAt(sc, rows, sc.uks[s], ids[a]);
      UkKeyAt(sc, rows, sc.uks[s], ids[b]);
      RankOrder(Norm(rows[ids[a]][sc.uks[s]], sc.rec), Norm(rows[ids[b]][sc.uks[s]], sc.rec), sc.rec);
    }
  }

  /** What an equality path returns: the row the index leads to, if it matches. */
  ghost function Single(sc: Schema, conds: seq<Cond>, rows: seq<Row>, m: map<int, int>, k: int): seq<int>
    requires SchemaOk(sc) && RowsOk(sc, rows)
  {
    if k in m && 0 <= m[k] < |rows| && Matches(sc, conds, rows[m[k]]) then [m[k]] else []
  }

  lemma IndexedAt(ks: seq<Option<int>>, m: map<int, int>, k: int)
    requires Indexed(ks, m)
    ensures forall r :: 0 <= r < |ks| ==> (ks[r] == Some(k) <==> k in m && m[k] == r)
    ensures k in m ==> 0 <= m[k] < |ks|
  {
  }

  /** An equality path whose key a matching, reached row must have. */
  lemma SingleAnswers(sc: Schema, conds: seq<Cond>, p: Path, rows: seq<Row>, m: map<int, int>, k: int, ks: seq<Option<int>>)
    requires SchemaOk(sc) && RowsOk(sc, rows) && Indexed(ks, m) && |ks| == |rows| && ((p.UkEq? || p.UkSpan?) ==> p.slot < |sc.uks|)
    requires forall r :: 0 <= r < |rows| && Matches(sc, conds, rows[r]) ==> (Reached(sc, p, rows[r]) <==> ks[r] == Some(k))
    ensures Answers(sc, conds, p, rows, Single(sc, conds, rows, m, k)) == true
  {
    IndexedAt(ks, m, k);
  }

  lemma PkEqAnswers(sc: Schema, conds: seq<Cond>, rows: seq<Row>, m: map<int, int>, v: Str)
    requires SchemaOk(sc) && RowsOk(sc, rows) && sc.pk >= 0 && PkHolds(sc, rows, |rows|, m) && PathOk(PkEq(v))
    ensures Answers(sc, conds, PkEq(v), rows, Single(sc, conds, rows, m, ParseL(v).value)) == true
  {
    var ks := PkKeys(sc, rows);
    assert ks[..|rows|] == ks;
    SingleAnswers(sc, conds, PkEq(v), rows, m, ParseL(v).value, ks);
  }

  lemma UkEqAnswers(sc: Schema, conds: seq<Cond>, rows: seq<Row>, m: map<int, int>, s: nat, v: Str)
    requires SchemaOk(sc) && RowsOk(sc, rows) && PathOn(sc, conds, UkEq(s, v), rows) && UkHolds(sc, rows, s, |rows|, m)
    ensures Answers(sc, conds, UkEq(s, v), rows, Single(sc, conds, rows, m, Rank(Norm(v, sc.rec), sc.rec))) == true
  {
    var k, ks := Rank(Norm(v, sc.rec), sc.rec), UkKeys(sc, sc.uks[s], rows);
    assert ks[..|rows|] == ks;
    forall r | 0 <= r < |rows| && Matches(sc, conds, rows[r]) ensures Reached(sc, UkEq(s, v), rows[r]) <==> ks[r] == Some(k) {
      assert PathHolds(sc, UkEq(s, v), rows[r]);
      UkKeyAt(sc, rows, sc.uks[s], r);
    }
    SingleAnswers(sc, conds, UkEq(s, v), rows, m, k, ks);
  }

  /** The matching rows among the first n, in order. */
  ghost predicate ScanSoFar(sc: Schema, conds: seq<Cond>, rows: seq<Row>, ids: seq<int>, n: nat)
    requires SchemaOk(sc) && RowsOk(sc, rows) && n <= |rows|
  {
    && (forall r :: r in ids <==> 0 <= r < n && Matches(sc, conds, rows[r]))
    && (forall a, b :: 0 <= a < b < |ids| ==> ids[a] < ids[b])
  }

  lemma ScanStep(sc: Schema, conds: seq<Cond>, rows: seq<Row>, ids: seq<int>, n: nat)
    requires SchemaOk(sc) && RowsOk(sc, rows) && n < |rows| && ScanSoFar(sc, conds, rows, ids, n)
    ensures ScanSoFar(sc, conds, rows, if Matches(sc, conds, rows[n]) then ids + [n] else ids, n + 1) == true
  {
    var ids' := ids + [n];
    forall a, b | 0 <= a < b < |ids'| ensures ids'[a] < ids'[b] {
      assert ids'[a] == ids[a] && ids[a] in ids;
    }
    forall r ensures r in ids' <==> r in ids || r == n {
    }
  }

  lemma ScanDone(sc: Schema, conds: seq<Cond>, rows: seq<Row>, ids: seq<int>)
    requires SchemaOk(sc) && RowsOk(sc, rows) && ScanSoFar(sc, conds, rows, ids, |rows|)
    ensures Answers(sc, conds, Scan, rows, ids) == true && InOrder(sc, Scan, rows, ids) == true
  {
  }

  // ------------------------------------------------------------ the index and the scan

  /** Rows that match and that the path does not reach. */
  ghost predicate Misses(sc: Schema, conds: seq<Cond>, p: Path, rows: seq<Row>)
    requires SchemaOk(sc) && RowsOk(sc, rows) && ((p.UkEq? || p.UkSpan?) ==> p.slot < |sc.uks|)
  {
    exists r :: 0 <= r < |rows| && Matches(sc, conds, rows[r]) && !Reached(sc, p, rows[r])
  }

  /** The text a UK condition starts from. */
  function UkBound(p: Path): Str
    requires p.UkEq? || p.UkSpan?
  {
    if p.UkEq? then p.val else p.lo
  }

  /** A UK path misses a matching row only if that row's UK is empty, and then only if
      the condition's value or lower bound is empty after normalisation. */
  lemma UkReaches(sc: Schema, p: Path, row: Row)
    requires SchemaOk(sc) && |row| == |sc.cols| && (p.UkEq? || p.UkSpan?) && p.slot < |sc.uks| && PathHolds(sc, p, row)
    ensures Reached(sc, p, row) <==> Norm(row[sc.uks[p.slot]], sc.rec) != []
    ensures Norm(UkBound(p), sc.rec) != [] ==> Reached(sc, p, row)
  {
    if p.UkSpan? && Norm(p.lo, sc.rec) != [] {
      AtMostEmpty(Norm(p.lo, sc.rec), Norm(row[sc.uks[p.slot]], sc.rec));
    }
  }

  lemma AtMostEmpty(a: Str, b: Str)
    requires AtMost(a, b) && a != []
    ensures b != []
  {
  }

  /** The PK path reaches a matching row exactly when the number in the first 255 bytes of
      its PK text is the number of the whole text: always for a text of at most 255. */
  lemma PkReaches(sc: Schema, p: Path, row: Row)
    requires SchemaOk(sc) && |row| == |sc.cols| && p.PkEq? && PathHolds(sc, p, row) && |p.val| <= 255
    ensures Reached(sc, p, row) <==> ParseL(row[sc.pk]) == Strtol(Norm(row[sc.pk], sc.rec))
    ensures |row[sc.pk]| <= 255 ==> Reached(sc, p, row)
  {
    assert Cut(p.val, 256) == p.val == Cut(p.val, sc.rec);
    if |row[sc.pk]| <= 255 {
      assert Cut(row[sc.pk], 256) == row[sc.pk] == Cut(row[sc.pk], sc.rec);
    }
  }

  /** The answer is the same set of rows a full scan would keep, exactly when no matching
      row is missed. */
  lemma IndexEqualsScan(sc: Schema, conds: seq<Cond>, p: Path, rows: seq<Row>, ids: seq<int>)
    requires SchemaOk(sc) && RowsOk(sc, rows) && ((p.UkEq? || p.UkSpan?) ==> p.slot < |sc.uks|) && Answers(sc, conds, p, rows, ids)
    ensures (forall r :: r in ids <==> 0 <= r < |rows| && Matches(sc, conds, rows[r])) <==> !Misses(sc, conds, p, rows)
  {
  }

  /** With PK texts of at most 255 bytes and, on a UK path, a value or lower bound that
      is not empty, the chosen path misses nothing. */
  lemma NothingMissed(sc: Schema, conds: seq<Cond>, rows: seq<Row>)
    requires SchemaOk(sc) && RowsOk(sc, rows)
    requires var p := PathOf(sc, conds);
             && (p.PkEq? ==> |p.val| <= 255 && forall r :: 0 <= r < |rows| && 0 <= sc.pk ==> |rows[r][sc.pk]| <= 255)
             && (p.UkEq? || p.UkSpan? ==> Norm(UkBound(p), sc.rec) != [])
    ensures !Misses(sc, conds, PathOf(sc, conds), rows)
  {
    var p := PathOf(sc, conds);
    forall r | 0 <= r < |rows| && Matches(sc, conds, rows[r]) ensures Reached(sc, p, rows[r]) {
      PathMeaning(sc, conds, rows[r]);
      if p.PkEq? {
        PkReaches(sc, p, rows[r]);
      } else if p.UkEq? || p.UkSpan? {
        UkReaches(sc, p, rows[r]);
      }
    }
  }

  /** On a UK path a row is missed exactly when it matches and its UK is empty: so the
      index and the scan agree if and only if no matching row has an empty UK. */
  lemma UkMissesEmpty(sc: Schema, conds: seq<Cond>, rows: seq<Row>)
    requires SchemaOk(sc) && RowsOk(sc, rows) && (PathOf(sc, conds).UkEq? || PathOf(sc, conds).UkSpan?)
    ensures var p := PathOf(sc, conds);
            Misses(sc, conds, p, rows) <==> exists r :: 0 <= r < |rows| && Matches(sc, conds, rows[r]) && Norm(rows[r][sc.uks[p.slot]], sc.rec) == []
  {
    forall r | 0 <= r < |rows| && Matches(sc, conds, rows[r])
      ensures Reached(sc, PathOf(sc, conds), rows[r]) <==> Norm(rows[r][sc.uks[PathOf(sc, conds).slot]], sc.rec) != []
    {
      PathMeaning(sc, conds, rows[r]);
      UkReaches(sc, PathOf(sc, conds), rows[r]);
    }
  }

  /** Such a table and query: one row whose UK is empty, and a range that starts there. */
  lemma UkMissExample(name: Str, hi: Str)
    requires name != ['i', 'd'] && Norm(hi, 1024) != []
    ensures var sc := Schema([Col(['i', 'd'], PK), Col(name, UK)], 0, [1], 1024); var rows := [[['1'], []]]; var conds := [Between(name, [], hi)];
            && SchemaOk(sc) && RowsOk(sc, rows) && PathOf(sc, conds) == UkSpan(0, [], hi)
            && Matches(sc, conds, rows[0]) && Misses(sc, conds, PathOf(sc, conds), rows)
  {
    var sc := Schema([Col(['i', 'd'], PK), Col(name, UK)], 0, [1], 1024);
    var conds := [Between(name, [], hi)];
    assert ColIdx(sc.cols, name) == 1;
    assert UkSlot(sc.uks, 1) == 0;
    assert Score(sc, conds[0]) == 70;
    assert Pick(sc, conds) == 0;
    assert Norm([], 1024) == [];
    assert Holds(sc, conds[0], [['1'], []]);
    UkMissesEmpty(sc, conds, [[['1'], []]]);
  }
}
