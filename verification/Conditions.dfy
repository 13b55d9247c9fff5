/** What the WHERE conditions accept and which of them an index serves, said without the
    functions the engine computes it with (src/db/dbapi.c:181-240, 356-462). */
module Conditions {
  import opened Basics
  import opened Text
  import opened EngineSpec
  import opened SelectSpec

  // ------------------------------------------------------------ texts

  /** The order of texts: a proper prefix comes first, and otherwise the first character
      that differs decides. */
  ghost predicate Precedes(a: Str, b: Str) {
    exists k :: 0 <= k <= |a| && k < |b| && a[..k] == b[..k] && (k == |a| || a[k] < b[k])
  }

  lemma {:induction false} LessIff(a: Str, b: Str)
    ensures Less(a, b) <==> Precedes(a, b)
  {
    if a != [] && b != [] && a[0] == b[0] {
      LessIff(a[1..], b[1..]);
      if Less(a, b) {
        var k :| 0 <= k <= |a[1..]| && k < |b[1..]| && a[1..][..k] == b[1..][..k] && (k == |a[1..]| || a[1..][k] < b[1..][k]);
        PrefixCons(a, b, k);
        assert a[..k + 1] == b[..k + 1];
      }
      if Precedes(a, b) {
        var k :| 0 <= k <= |a| && k < |b| && a[..k] == b[..k] && (k == |a| || a[k] < b[k]);
        assert a[1..][..k - 1] == a[..k][1..] && b[1..][..k - 1] == b[..k][1..];
        assert Precedes(a[1..], b[1..]);
      }
    } else if a == [] && b != [] {
      assert a[..0] == b[..0];
    } else if a != [] && b != [] && a[0] < b[0] {
      assert a[..0] == b[..0];
    } else if a != [] && b != [] && Precedes(a, b) {
      var k :| 0 <= k <= |a| && k < |b| && a[..k] == b[..k] && (k == |a| || a[k] < b[k]);
      if k > 0 {
        SameHead(a, b, k);
      }
    }
  }

  lemma PrefixCons(a: Str, b: Str, k: nat)
    requires a != [] && b != [] && a[0] == b[0] && k <= |a[1..]| && k <= |b[1..]| && a[1..][..k] == b[1..][..k]
    ensures a[..k + 1] == b[..k + 1]
  {
    assert a[..k + 1] == [a[0]] + a[1..][..k] && b[..k + 1] == [b[0]] + b[1..][..k];
  }

  lemma SameHead(a: Str, b: Str, k: nat)
    requires 0 < k <= |a| && k <= |b| && a[..k] == b[..k]
    ensures a[0] == b[0]
  {
    assert a[..k][0] == b[..k][0];
  }

  /** Of two texts one comes first, unless they are equal. */
  lemma {:induction false} Trichotomy(a: Str, b: Str)
    ensures Less(a, b) ==> !Less(b, a) && a != b
    ensures a != b ==> Less(a, b) || Less(b, a)
  {
    if a != [] && b != [] && a[0] == b[0] {
      Trichotomy(a[1..], b[1..]);
      assert a == [a[0]] + a[1..] && b == [b[0]] + b[1..];
    }
  }

  // ------------------------------------------------------------ conditions

  /** Column i is the first of that name. */
  predicate Named(sc: Schema, name: Str, i: int) {
    0 <= i < |sc.cols| && sc.cols[i].name == name && forall j :: 0 <= j < i ==> sc.cols[j].name != name
  }

  /** What a condition asks of column i of a row: equality of normalised texts; on the PK
      column a range of numbers; on any other column a range of normalised texts, both ends
      included. */
  ghost predicate AsksAt(sc: Schema, c: Cond, row: Row, i: int)
    requires Sized(sc) && |row| == |sc.cols| && 0 <= i < |row|
  {
    match c
    case Eq(_, v) => Norm(row[i], sc.rec) == Norm(v, sc.rec)
    case Between(_, lo, hi) =>
      if i == sc.pk then Numbers(lo, row[i], hi)
      else !Precedes(Norm(row[i], sc.rec), Norm(lo, sc.rec)) && !Precedes(Norm(hi, sc.rec), Norm(row[i], sc.rec))
    case Untyped(_) => false
  }

  ghost predicate Asks(sc: Schema, c: Cond, row: Row)
    requires Sized(sc) && |row| == |sc.cols|
  {
    exists i :: Named(sc, c.col, i) && AsksAt(sc, c, row, i)
  }

  /** Three texts that are numbers, the second between the others. */
  ghost predicate Numbers(lo: Str, v: Str, hi: Str) {
    exists a, x, b {:trigger Some(a), Some(x), Some(b)} :: ParseL(lo) == Some(a) && ParseL(v) == Some(x) && ParseL(hi) == Some(b) && a <= x <= b
  }

  lemma SpanIff(v: Str, lo: Str, hi: Str, rec: nat)
    requires rec > 0
    ensures InSpan(v, lo, hi, rec) <==> !Precedes(Norm(v, rec), Norm(lo, rec)) && !Precedes(Norm(hi, rec), Norm(v, rec))
  {
    LessIff(Norm(v, rec), Norm(lo, rec));
    LessIff(Norm(hi, rec), Norm(v, rec));
    Trichotomy(Norm(v, rec), Norm(lo, rec));
    Trichotomy(Norm(hi, rec), Norm(v, rec));
  }

  lemma NumbersIff(lo: Str, v: Str, hi: Str)
    ensures NumSpan(v, lo, hi) <==> Numbers(lo, v, hi)
  {
    if NumSpan(v, lo, hi) {
      var a, x, b := ParseL(lo).value, ParseL(v).value, ParseL(hi).value;
      assert ParseL(lo) == Some(a) && ParseL(v) == Some(x) && ParseL(hi) == Some(b);
    }
  }

  lemma HoldsAt(sc: Schema, c: Cond, row: Row, i: int)
    requires Sized(sc) && |row| == |sc.cols| && i == ColIdx(sc.cols, c.col) >= 0
    ensures Holds(sc, c, row) == AsksAt(sc, c, row, i)
  {
    if c.Between? {
      SpanIff(row[i], c.val, c.end, sc.rec);
      NumbersIff(c.val, row[i], c.end);
    }
  }

  lemma HoldsIff(sc: Schema, c: Cond, row: Row)
    requires Sized(sc) && |row| == |sc.cols|
    ensures Holds(sc, c, row) == Asks(sc, c, row)
  {
    var i := ColIdx(sc.cols, c.col);
    if i >= 0 {
      HoldsAt(sc, c, row, i);
      assert Named(sc, c.col, i);
    }
  }

  /** A row matches exactly when it is what every condition asks for. */
  lemma MatchesIff(sc: Schema, conds: seq<Cond>, row: Row)
    requires Sized(sc) && |row| == |sc.cols|
    ensures Matches(sc, conds, row) <==> forall i :: 0 <= i < |conds| ==> Asks(sc, conds[i], row)
  {
    forall i | 0 <= i < |conds| ensures Holds(sc, conds[i], row) <==> Asks(sc, conds[i], row) {
      HoldsIff(sc, conds[i], row);
    }
  }

  /** Both ends of a range match, whenever it is not empty. */
  lemma EndsMatch(sc: Schema, col: Str, lo: Str, hi: Str, row: Row, c: nat)
    requires Sized(sc) && |row| == |sc.cols| && c < |row| && c != sc.pk && ColIdx(sc.cols, col) == c && !Less(Norm(hi, sc.rec), Norm(lo, sc.rec))
    requires row[c] == lo || row[c] == hi
    ensures Matches(sc, [Between(col, lo, hi)], row)
  {
    Trichotomy(Norm(lo, sc.rec), Norm(hi, sc.rec));
  }

  // ------------------------------------------------------------ the choice of an index

  predicate OnPk(sc: Schema, c: Cond) {
    sc.pk >= 0 && ColIdx(sc.cols, c.col) == sc.pk
  }

  predicate OnUk(sc: Schema, c: Cond) {
    exists j :: 0 <= j < |sc.uks| && sc.uks[j] == ColIdx(sc.cols, c.col)
  }

  /** The four kinds of conditions an index serves, best first. */
  predicate Serves(sc: Schema, c: Cond, rank: nat) {
    match rank
    case 0 => c.Eq? && OnPk(sc, c)
    case 1 => c.Eq? && OnUk(sc, c)
    case 2 => c.Between? && OnPk(sc, c)
    case 3 => c.Between? && OnUk(sc, c)
    case _ => false
  }

  /** Condition n is the first of its kind, and there is none of a better kind. */
  ghost predicate BestAt(sc: Schema, conds: seq<Cond>, n: nat, rank: nat) {
    && n < |conds| && Serves(sc, conds[n], rank)
    && (forall j :: 0 <= j < n ==> !Serves(sc, conds[j], rank))
    && (forall j, r: nat {:trigger Serves(sc, conds[j], r)} :: 0 <= j < |conds| && r < rank ==> !Serves(sc, conds[j], r))
  }

  lemma ScoreOf(sc: Schema, c: Cond)
    requires SchemaOk(sc)
    ensures Score(sc, c) == if Serves(sc, c, 0) then 100 else if Serves(sc, c, 1) then 90 else if Serves(sc, c, 2) then 80 else if Serves(sc, c, 3) then 70 else 0
  {
    var i := ColIdx(sc.cols, c.col);
    if OnUk(sc, c) {
      var j :| 0 <= j < |sc.uks| && sc.uks[j] == i;
      assert UkSlot(sc.uks, i) != -1;
    }
  }

  /** The first condition of the best kind is the one the index serves. */
  lemma BestIsPicked(sc: Schema, conds: seq<Cond>, n: nat, rank: nat)
    requires SchemaOk(sc) && BestAt(sc, conds, n, rank)
    ensures Pick(sc, conds) == n
  {
    forall j | 0 <= j < |conds| ensures Score(sc, conds[j]) <= Score(sc, conds[n]) && (j < n ==> Score(sc, conds[j]) < Score(sc, conds[n])) {
      ScoreOf(sc, conds[j]);
      ScoreOf(sc, conds[n]);
      NoBetter(sc, conds, n, rank, j);
    }
    var i := Pick(sc, conds);
    assert i >= 0;
  }

  lemma NoBetter(sc: Schema, conds: seq<Cond>, n: nat, rank: nat, j: nat)
    requires BestAt(sc, conds, n, rank) && j < |conds|
    ensures forall r: nat :: r < rank ==> !Serves(sc, conds[j], r) && !Serves(sc, conds[n], r)
    ensures j < n ==> !Serves(sc, conds[j], rank)
  {
  }

  /** PK equality comes before UK equality, that before a PK range, and that before a UK
      range; without any of them all rows are scanned.  The statement is refused exactly
      when the value or a bound for the PK tree is no number. */
  lemma PathChosen(sc: Schema, conds: seq<Cond>, n: nat)
    requires SchemaOk(sc)
    ensures BestAt(sc, conds, n, 0) ==> PathOf(sc, conds) == PkEq(conds[n].val) && (PathOk(PathOf(sc, conds)) <==> ParseL(conds[n].val).Some?)
    ensures BestAt(sc, conds, n, 1) ==> var p := PathOf(sc, conds); PathOk(p) && p.UkEq? && sc.uks[p.slot] == ColIdx(sc.cols, conds[n].col) && p.val == conds[n].val
    ensures BestAt(sc, conds, n, 2) ==>
              PathOf(sc, conds) == PkSpan(conds[n].val, conds[n].end) && (PathOk(PathOf(sc, conds)) <==> ParseL(conds[n].val).Some? && ParseL(conds[n].end).Some?)
    ensures BestAt(sc, conds, n, 3) ==>
              var p := PathOf(sc, conds); PathOk(p) && p.UkSpan? && sc.uks[p.slot] == ColIdx(sc.cols, conds[n].col) && p.lo == conds[n].val && p.hi == conds[n].end
  {
    if BestAt(sc, conds, n, 0) {
      BestIsPicked(sc, conds, n, 0);
    } else if BestAt(sc, conds, n, 1) {
      BestIsPicked(sc, conds, n, 1);
      NotBoth(sc, conds[n]);
    } else if BestAt(sc, conds, n, 2) {
      BestIsPicked(sc, conds, n, 2);
    } else if BestAt(sc, conds, n, 3) {
      BestIsPicked(sc, conds, n, 3);
      NotBoth(sc, conds[n]);
    }
  }

  /** The PK column is no UK column. */
  lemma NotBoth(sc: Schema, c: Cond)
    requires SchemaOk(sc) && OnUk(sc, c)
    ensures ColIdx(sc.cols, c.col) >= 0 && ColIdx(sc.cols, c.col) != sc.pk
  {
  }

  lemma NothingServed(sc: Schema, conds: seq<Cond>)
    requires SchemaOk(sc) && forall j, r: nat {:trigger Serves(sc, conds[j], r)} :: 0 <= j < |conds| && r < 4 ==> !Serves(sc, conds[j], r)
    ensures PathOf(sc, conds) == Scan
  {
    forall j | 0 <= j < |conds| ensures Score(sc, conds[j]) == 0 {
      ScoreOf(sc, conds[j]);
    }
  }
}
