/** The mathematical B+ tree behind src/legacy/bptree.c.

    A tree value carries the address of each of its nodes, so that one value
    describes both what a tree stores and where it lives in memory.  The in-place
    code in BTreeHeap is proved to compute the functions defined here; this module
    proves that those functions refine insertion into a sorted list of pairs. */
module BTreeSpec {
  import opened Basics

  datatype Tree =
    | Leaf(ptr: nat, keys: seq<int>, vals: seq<int>)
    | Node(ptr: nat, keys: seq<int>, kids: seq<Tree>)

  /** Outcome of a recursive insert: duplicate key, one tree, or a split. */
  datatype Ins = Dup | One(t: Tree) | Two(l: Tree, sep: int, r: Tree)

  type Pairs = seq<(int, int)>

  // ---------------------------------------------------------------- ordering

  predicate Sorted(s: seq<int>) {
    forall i, j :: 0 <= i < j < |s| ==> s[i] < s[j]
  }

  predicate Within(s: seq<int>, lo: int, hi: int) {
    forall i :: 0 <= i < |s| ==> lo <= s[i] < hi
  }

  predicate SortedPairs(s: Pairs) {
    forall i, j :: 0 <= i < j < |s| ==> s[i].0 < s[j].0
  }

  predicate PairsWithin(s: Pairs, lo: int, hi: int) {
    forall i :: 0 <= i < |s| ==> lo <= s[i].0 < hi
  }

  /** How many keys of a sorted array are below `k`. */
  function LowerBound(keys: seq<int>, k: int): (r: nat)
    requires Sorted(keys)
    ensures r <= |keys|
    ensures forall j :: 0 <= j < r ==> keys[j] < k
    ensures forall j :: r <= j < |keys| ==> k <= keys[j]
  {
    if keys == [] || k <= keys[0] then 0 else 1 + LowerBound(keys[1..], k)
  }

  /** How many keys of a sorted array are at most `k`. */
  function UpperBound(keys: seq<int>, k: int): (r: nat)
    requires Sorted(keys)
    ensures r <= |keys|
    ensures forall j :: 0 <= j < r ==> keys[j] <= k
    ensures forall j :: r <= j < |keys| ==> k < keys[j]
  {
    if keys == [] || k < keys[0] then 0 else 1 + UpperBound(keys[1..], k)
  }

  // ---------------------------------------------------------- well-formedness

  function Lo(keys: seq<int>, i: nat, lo: int): int
    requires i <= |keys|
  {
    if i == 0 then lo else keys[i - 1]
  }

  function Hi(keys: seq<int>, i: nat, hi: int): int
    requires i <= |keys|
  {
    if i == |keys| then hi else keys[i]
  }

  /** A tree of order `m` whose leaves are all at height 1, holding keys in [lo, hi).
      Inside a node, separators are strictly sorted in (lo, hi) and child i holds
      keys in [sep(i-1), sep(i)).  Empty leaves and single-child nodes are allowed:
      lazy deletes and bulk builds produce them. */
  ghost predicate WF(t: Tree, h: nat, lo: int, hi: int, m: nat)
    decreases h
  {
    match t
    case Leaf(_, keys, vals) =>
      h == 1 && |vals| == |keys| < m && Sorted(keys) && Within(keys, lo, hi)
    case Node(_, keys, kids) =>
      && h > 1
      && |keys| < m
      && |kids| == |keys| + 1
      && Sorted(keys)
      && (forall i :: 0 <= i < |keys| ==> lo < keys[i] < hi)
      && (forall i :: 0 <= i < |kids| ==> WF(kids[i], h - 1, Lo(keys, i, lo), Hi(keys, i, hi), m))
  }

  /** An internal node's contents before its capacity is checked. */
  ghost predicate Body(keys: seq<int>, kids: seq<Tree>, h: nat, lo: int, hi: int, m: nat) {
    && h > 1
    && |kids| == |keys| + 1
    && Sorted(keys)
    && (forall i :: 0 <= i < |keys| ==> lo < keys[i] < hi)
    && (forall i :: 0 <= i < |kids| ==> WF(kids[i], h - 1, Lo(keys, i, lo), Hi(keys, i, hi), m))
  }

  // ------------------------------------------------------------ what it stores

  function Zip(keys: seq<int>, vals: seq<int>): (r: Pairs)
    requires |keys| == |vals|
    ensures |r| == |keys|
    ensures forall i :: 0 <= i < |r| ==> r[i] == (keys[i], vals[i])
  {
    seq(|keys|, i requires 0 <= i < |keys| => (keys[i], vals[i]))
  }

  /** The pairs of a tree, left to right. */
  ghost function Flat(t: Tree): Pairs
    decreases t, 0
  {
    match t
    case Leaf(_, keys, vals) => if |keys| == |vals| then Zip(keys, vals) else []
    case Node(_, _, kids) => FlatAll(kids)
  }

  ghost function FlatAll(ts: seq<Tree>): Pairs
    decreases ts, 1
  {
    if ts == [] then [] else Flat(ts[0]) + FlatAll(ts[1..])
  }

  /** Abstract value of a list of pairs: a finite map. */
  ghost function ToMap(s: Pairs): map<int, int> {
    if s == [] then map[] else ToMap(s[1..])[s[0].0 := s[0].1]
  }

  /** Ordered insertion into a sorted list of pairs: the simple form that tree
      insertion refines. */
  function Put(s: Pairs, k: int, v: int): Pairs {
    if s == [] || k < s[0].0 then [(k, v)] + s else [s[0]] + Put(s[1..], k, v)
  }

  predicate Below(s: Pairs, k: int) {
    forall i :: 0 <= i < |s| ==> s[i].0 < k
  }

  predicate Above(s: Pairs, k: int) {
    forall i :: 0 <= i < |s| ==> k < s[i].0
  }

  ghost predicate HasKey(s: Pairs, k: int) {
    exists i :: 0 <= i < |s| && s[i].0 == k
  }

  // -------------------------------------------------------------- the operations

  /** Insertion into a leaf: a leaf that would reach `m` keys splits after (m-1)/2. */
  ghost function LeafIns(p: nat, keys: seq<int>, vals: seq<int>, m: nat, k: int, v: int, nx: nat): Ins
    requires m >= 4 && |keys| == |vals| < m && Sorted(keys)
  {
    var i := LowerBound(keys, k);
    if i < |keys| && keys[i] == k then Dup
    else
      var ks := keys[..i] + [k] + keys[i..];
      var vs := vals[..i] + [v] + vals[i..];
      if |ks| < m then One(Leaf(p, ks, vs))
      else
        var c := (m - 1) / 2;
        Two(Leaf(p, ks[..c], vs[..c]), ks[c], Leaf(nx, ks[c..], vs[c..]))
  }

  /** The key string_insert_recursive copies as separator while the full leaf is still
      unshifted. */
  function CopiedSeparator(keys: seq<int>, m: nat, k: int): int
    requires m >= 4 && |keys| == m - 1 && Sorted(keys)
  {
    var i, c := LowerBound(keys, k), (m - 1) / 2;
    if i < c then keys[c - 1] else if i == c then k else keys[c]
  }

  /** When a leaf splits, the separator copied beforehand is the separator of the split:
      the first key of the right leaf, above every key of the left one. */
  lemma SeparatorBeforeShift(p: nat, keys: seq<int>, vals: seq<int>, m: nat, k: int, v: int, nx: nat)
    requires m >= 4 && |keys| == |vals| < m && Sorted(keys) && LeafIns(p, keys, vals, m, k, v, nx).Two?
    ensures |keys| == m - 1
    ensures var r := LeafIns(p, keys, vals, m, k, v, nx);
            && r.sep == CopiedSeparator(keys, m, k) && r.r.keys != [] && r.r.keys[0] == r.sep
            && forall j :: 0 <= j < |r.l.keys| ==> r.l.keys[j] < r.sep
  {
    var i, c := LowerBound(keys, k), (m - 1) / 2;
    var ks := keys[..i] + [k] + keys[i..];
    assert forall j :: 0 <= j < |ks| ==> ks[j] == if j < i then keys[j] else if j == i then k else keys[j - 1];
    forall j | 0 <= j < c ensures ks[j] < ks[c] {
    }
  }

  /** A node that has reached `m` keys splits around its key m/2. */
  ghost function SplitNode(p: nat, ks: seq<int>, cs: seq<Tree>, m: nat, nx: nat): Ins
    requires m >= 4 && |cs| == |ks| + 1 <= m + 1
  {
    if |ks| < m then One(Node(p, ks, cs))
    else
      var c := m / 2;
      Two(Node(p, ks[..c], cs[..c + 1]), ks[c], Node(nx, ks[c + 1..], cs[c + 1..]))
  }

  /** What an internal node does with the result of inserting into its child i. */
  ghost function NodeIns(p: nat, keys: seq<int>, kids: seq<Tree>, m: nat, i: nat, sub: Ins, nx: nat): Ins
    requires m >= 4 && i < |kids| == |keys| + 1 <= m
  {
    match sub
    case Dup => Dup
    case One(c) => One(Node(p, keys, kids[i := c]))
    case Two(l, s, r) =>
      SplitNode(p, keys[..i] + [s] + keys[i..], kids[..i] + [l, r] + kids[i + 1..], m, nx)
  }

  /** Insertion as insert_recursive performs it; the right sibling made by a split
      at height h takes the h-th address from `nx`. */
  ghost function Insert(t: Tree, h: nat, lo: int, hi: int, m: nat, k: int, v: int, nx: nat): (r: Ins)
    requires m >= 4 && WF(t, h, lo, hi, m)
    decreases h
  {
    match t
    case Leaf(p, keys, vals) => LeafIns(p, keys, vals, m, k, v, nx)
    case Node(p, keys, kids) =>
      var i := UpperBound(keys, k);
      NodeIns(p, keys, kids, m, i, Insert(kids[i], h - 1, Lo(keys, i, lo), Hi(keys, i, hi), m, k, v, nx), nx + h - 1)
  }

  /** Lazy deletion: the key leaves its leaf, separators and shape stay. */
  ghost function Delete(t: Tree, h: nat, lo: int, hi: int, m: nat, k: int): (r: Tree)
    requires WF(t, h, lo, hi, m)
    decreases h
  {
    match t
    case Leaf(p, keys, vals) =>
      var i := LowerBound(keys, k);
      if i < |keys| && keys[i] == k then Leaf(p, keys[..i] + keys[i + 1..], vals[..i] + vals[i + 1..]) else t
    case Node(p, keys, kids) =>
      var i := UpperBound(keys, k);
      Node(p, keys, kids[i := Delete(kids[i], h - 1, Lo(keys, i, lo), Hi(keys, i, hi), m, k)])
  }

  // ------------------------------------------------------------ sequence algebra

  lemma TailAppend<T>(a: seq<T>, b: seq<T>)
    requires a != []
    ensures (a + b)[0] == a[0] && (a + b)[1..] == a[1..] + b
  {
  }

  lemma SplitAt<T>(s: seq<T>, i: nat)
    requires i < |s|
    ensures s == s[..i] + s[i..] && s[i..][0] == s[i] && s[i..][1..] == s[i + 1..]
  {
  }

  lemma Regroup<T>(b: seq<T>, a: seq<T>, x: seq<T>, c: seq<T>, d: seq<T>)
    ensures b + (a + x + c) + d == (b + a) + x + (c + d)
  {
  }

  // ------------------------------------------------------ lists of pairs: lemmas

  lemma {:induction false} FlatAllAppend(a: seq<Tree>, b: seq<Tree>)
    ensures FlatAll(a + b) == FlatAll(a) + FlatAll(b)
  {
    if a == [] {
      assert a + b == b;
    } else {
      FlatAllAppend(a[1..], b);
      TailAppend(a, b);
    }
  }

  /** The pairs of a child list around child i. */
  lemma FlatAllAt(ts: seq<Tree>, i: nat)
    requires i < |ts|
    ensures FlatAll(ts) == FlatAll(ts[..i]) + Flat(ts[i]) + FlatAll(ts[i + 1..])
  {
    SplitAt(ts, i);
    FlatAllAppend(ts[..i], ts[i..]);
  }

  lemma {:induction false} ToMapAppend(a: Pairs, b: Pairs)
    ensures ToMap(a + b) == ToMap(b) + ToMap(a)
  {
    if a == [] {
      assert a + b == b;
    } else {
      ToMapAppend(a[1..], b);
      TailAppend(a, b);
    }
  }

  lemma {:induction false} ToMapKeys(s: Pairs)
    ensures forall k :: k in ToMap(s) <==> HasKey(s, k)
  {
    if s != [] {
      ToMapKeys(s[1..]);
      forall k ensures k in ToMap(s) <==> HasKey(s, k) {
        if HasKey(s, k) && s[0].0 != k {
          var i :| 0 <= i < |s| && s[i].0 == k;
          assert s[1..][i - 1].0 == k;
        }
        if HasKey(s[1..], k) {
          var i :| 0 <= i < |s[1..]| && s[1..][i].0 == k;
          assert s[i + 1].0 == k;
        }
      }
    }
  }

  lemma {:induction false} ToMapAt(s: Pairs, i: nat)
    requires SortedPairs(s) && i < |s|
    ensures s[i].0 in ToMap(s) && ToMap(s)[s[i].0] == s[i].1
  {
    if i > 0 {
      ToMapAt(s[1..], i - 1);
    }
  }

  /** Ordered insertion is map insertion. */
  lemma {:induction false} PutIsMapUpdate(s: Pairs, k: int, v: int)
    requires !HasKey(s, k)
    ensures ToMap(Put(s, k, v)) == ToMap(s)[k := v]
  {
    if s == [] || k < s[0].0 {
      assert ([(k, v)] + s)[1..] == s;
    } else {
      assert s[0].0 != k;
      assert forall i :: 0 <= i < |s[1..]| ==> s[1..][i] == s[i + 1];
      PutIsMapUpdate(s[1..], k, v);
      assert ([s[0]] + Put(s[1..], k, v))[1..] == Put(s[1..], k, v);
    }
  }

  lemma {:induction false} PutWithin(s: Pairs, k: int, v: int, lo: int, hi: int)
    requires PairsWithin(s, lo, hi) && lo <= k < hi
    ensures |Put(s, k, v)| == |s| + 1 && PairsWithin(Put(s, k, v), lo, hi)
  {
    if s != [] && s[0].0 <= k {
      assert forall i :: 0 <= i < |s[1..]| ==> s[1..][i] == s[i + 1];
      PutWithin(s[1..], k, v, lo, hi);
    }
  }

  /** ... and keeps the list sorted. */
  lemma {:induction false} PutSorted(s: Pairs, k: int, v: int)
    requires SortedPairs(s) && !HasKey(s, k)
    ensures SortedPairs(Put(s, k, v))
  {
    if s != [] && s[0].0 <= k {
      assert forall i :: 0 <= i < |s[1..]| ==> s[1..][i] == s[i + 1];
      PutSorted(s[1..], k, v);
      PutWithin(s[1..], k, v, s[0].0 + 1, MaxKey(s, k) + 1);
    }
  }

  ghost function MaxKey(s: Pairs, k: int): (r: int)
    ensures k <= r
    ensures forall i :: 0 <= i < |s| ==> s[i].0 <= r
  {
    if s == [] then k else
      var r := MaxKey(s[1..], k);
      assert forall i :: 1 <= i < |s| ==> s[i] == s[1..][i - 1];
      if r < s[0].0 then s[0].0 else r
  }

  lemma {:induction false} PutLast(s: Pairs, k: int, v: int)
    requires Below(s, k)
    ensures Put(s, k, v) == s + [(k, v)]
  {
    if s != [] {
      assert s[0].0 < k;
      assert forall i :: 0 <= i < |s[1..]| ==> s[1..][i] == s[i + 1];
      PutLast(s[1..], k, v);
      assert [s[0]] + (s[1..] + [(k, v)]) == s + [(k, v)];
    }
  }

  /** What a tree holds after inserting pairs one by one into an empty one. */
  ghost function PutAll(pairs: Pairs): Pairs {
    if pairs == [] then [] else Put(PutAll(pairs[..|pairs| - 1]), pairs[|pairs| - 1].0, pairs[|pairs| - 1].1)
  }

  /** Inserting a strictly increasing sequence one by one gives what bulk building from it
      gives: the sequence itself. */
  lemma {:induction false} PutAllSorted(pairs: Pairs)
    requires SortedPairs(pairs)
    ensures PutAll(pairs) == pairs
  {
    if pairs != [] {
      var n := |pairs| - 1;
      PutAllSorted(pairs[..n]);
      PutLast(pairs[..n], pairs[n].0, pairs[n].1);
      assert pairs[..n] + [pairs[n]] == pairs;
    }
  }

  /** Insertion only touches the part of the list the key belongs to. */
  lemma {:induction false} PutMiddle(a: Pairs, x: Pairs, c: Pairs, k: int, v: int)
    requires Below(a, k) && Above(c, k)
    ensures Put(a + x + c, k, v) == a + Put(x, k, v) + c
  {
    if a != [] {
      PutMiddle(a[1..], x, c, k, v);
      assert (a + x + c)[1..] == a[1..] + x + c;
      assert (a + x + c)[0] == a[0];
    } else if x == [] || k < x[0].0 {
      assert a + x + c == x + c;
      if x == [] && c != [] { assert (x + c)[0] == c[0]; }
      if x != [] { assert (x + c)[0] == x[0]; }
      assert Put(x + c, k, v) == [(k, v)] + (x + c);
      assert Put(x, k, v) == [(k, v)] + x;
    } else {
      assert a + x + c == x + c;
      PutMiddle([], x[1..], c, k, v);
      assert (x + c)[1..] == [] + x[1..] + c;
      assert (x + c)[0] == x[0];
      assert Put(x, k, v) == [x[0]] + Put(x[1..], k, v);
    }
  }

  // --------------------------------------------------------- order inside a tree

  /** Everything stored in a well-formed tree lies in its key range. */
  lemma {:induction false} FlatWithin(t: Tree, h: nat, lo: int, hi: int, m: nat)
    requires WF(t, h, lo, hi, m)
    ensures PairsWithin(Flat(t), lo, hi)
    decreases h, 1, 0
  {
    if t.Node? {
      FlatAllWithin(t.keys, t.kids, h, lo, hi, m, 0, |t.kids|);
      assert t.kids[0..|t.kids|] == t.kids;
    }
  }

  /** ... and the children in a window of a node lie between its separators. */
  lemma {:induction false} FlatAllWithin(keys: seq<int>, kids: seq<Tree>, h: nat, lo: int, hi: int, m: nat, i: nat, j: nat)
    requires Body(keys, kids, h, lo, hi, m) && i <= j <= |kids|
    ensures i < j ==> PairsWithin(FlatAll(kids[i..j]), Lo(keys, i, lo), Hi(keys, j - 1, hi))
    ensures i == j ==> FlatAll(kids[i..j]) == []
    decreases h, 0, j - i
  {
    if i < j {
      FlatWithin(kids[i], h - 1, Lo(keys, i, lo), Hi(keys, i, hi), m);
      FlatAllWithin(keys, kids, h, lo, hi, m, i + 1, j);
      assert kids[i..j][1..] == kids[i + 1..j];
    }
  }

  /** The pairs of a well-formed tree are strictly sorted by key. */
  lemma {:induction false} FlatSorted(t: Tree, h: nat, lo: int, hi: int, m: nat)
    requires WF(t, h, lo, hi, m)
    ensures SortedPairs(Flat(t))
    decreases h, 1, 0
  {
    if t.Node? {
      FlatAllSorted(t.keys, t.kids, h, lo, hi, m, 0);
      assert t.kids[0..] == t.kids;
    }
  }

  lemma {:induction false} FlatAllSorted(keys: seq<int>, kids: seq<Tree>, h: nat, lo: int, hi: int, m: nat, i: nat)
    requires Body(keys, kids, h, lo, hi, m) && i <= |kids|
    ensures SortedPairs(FlatAll(kids[i..]))
    decreases h, 0, |kids| - i
  {
    if i < |kids| {
      FlatSorted(kids[i], h - 1, Lo(keys, i, lo), Hi(keys, i, hi), m);
      FlatWithin(kids[i], h - 1, Lo(keys, i, lo), Hi(keys, i, hi), m);
      FlatAllSorted(keys, kids, h, lo, hi, m, i + 1);
      FlatAllWithin(keys, kids, h, lo, hi, m, i + 1, |kids|);
      assert kids[i..][1..] == kids[i + 1..] == kids[i + 1..|kids|];
    }
  }

  lemma KidsBelow(keys: seq<int>, kids: seq<Tree>, h: nat, lo: int, hi: int, m: nat, i: nat, k: int)
    requires Body(keys, kids, h, lo, hi, m) && i < |kids| && Lo(keys, i, lo) <= k
    ensures Below(FlatAll(kids[..i]), k)
  {
    FlatAllWithin(keys, kids, h, lo, hi, m, 0, i);
    assert kids[0..i] == kids[..i];
  }

  lemma KidsAbove(keys: seq<int>, kids: seq<Tree>, h: nat, lo: int, hi: int, m: nat, i: nat, k: int)
    requires Body(keys, kids, h, lo, hi, m) && i < |kids| && k < Hi(keys, i, hi)
    ensures Above(FlatAll(kids[i + 1..]), k)
  {
    FlatAllWithin(keys, kids, h, lo, hi, m, i + 1, |kids|);
    assert kids[i + 1..|kids|] == kids[i + 1..];
  }

  /** The child that a descent for `k` picks splits the node's pairs around `k`. */
  lemma DescendSplit(keys: seq<int>, kids: seq<Tree>, h: nat, lo: int, hi: int, m: nat, k: int)
    requires Body(keys, kids, h, lo, hi, m) && lo <= k < hi
    ensures var i := UpperBound(keys, k);
            && i < |kids|
            && Lo(keys, i, lo) <= k < Hi(keys, i, hi)
            && FlatAll(kids) == FlatAll(kids[..i]) + Flat(kids[i]) + FlatAll(kids[i + 1..])
            && Below(FlatAll(kids[..i]), k)
            && Above(FlatAll(kids[i + 1..]), k)
  {
    var i := UpperBound(keys, k);
    FlatAllAt(kids, i);
    KidsBelow(keys, kids, h, lo, hi, m, i, k);
    KidsAbove(keys, kids, h, lo, hi, m, i, k);
  }

  /** A descent for `k` loses nothing: the tree and the chosen child agree on `k`. */
  lemma DescendLookup(keys: seq<int>, kids: seq<Tree>, h: nat, lo: int, hi: int, m: nat, k: int)
    requires Body(keys, kids, h, lo, hi, m) && lo <= k < hi
    ensures var i := UpperBound(keys, k);
            && (k in ToMap(FlatAll(kids)) <==> k in ToMap(Flat(kids[i])))
            && (k in ToMap(FlatAll(kids)) ==> ToMap(FlatAll(kids))[k] == ToMap(Flat(kids[i]))[k])
  {
    var i := UpperBound(keys, k);
    DescendSplit(keys, kids, h, lo, hi, m, k);
    LookupMiddle(FlatAll(kids[..i]), Flat(kids[i]), FlatAll(kids[i + 1..]), k);
  }

  lemma LookupMiddle(a: Pairs, x: Pairs, c: Pairs, k: int)
    requires Below(a, k) && Above(c, k)
    ensures (k in ToMap(a + x + c) <==> k in ToMap(x)) && (k in ToMap(x) ==> ToMap(a + x + c)[k] == ToMap(x)[k])
  {
    ToMapAppend(a + x, c);
    ToMapAppend(a, x);
    ToMapKeys(a);
    ToMapKeys(c);
  }

  lemma HasKeyMiddle(a: Pairs, x: Pairs, c: Pairs, k: int)
    requires Below(a, k) && Above(c, k)
    ensures HasKey(a + x + c, k) <==> HasKey(x, k)
  {
    if HasKey(a + x + c, k) {
      var i :| 0 <= i < |a + x + c| && (a + x + c)[i].0 == k;
      assert x[i - |a|].0 == k;
    }
    if HasKey(x, k) {
      var i :| 0 <= i < |x| && x[i].0 == k;
      assert (a + x + c)[|a| + i].0 == k;
    }
  }

  // ------------------------------------------------------ leaves and range scans

  /** The leaf a descent for `k` ends in. */
  ghost function LeafFor(t: Tree, h: nat, lo: int, hi: int, m: nat, k: int): (r: Tree)
    requires WF(t, h, lo, hi, m)
    ensures r.Leaf? && |r.keys| == |r.vals| && Sorted(r.keys)
    decreases h
  {
    if t.Leaf? then t
    else
      var i := UpperBound(t.keys, k);
      LeafFor(t.kids[i], h - 1, Lo(t.keys, i, lo), Hi(t.keys, i, hi), m, k)
  }

  /** The leaves of a tree, left to right. */
  ghost function LeafTrees(t: Tree): seq<Tree>
    decreases t, 0
  {
    if t.Leaf? then [t] else LeafTreesAll(t.kids)
  }

  ghost function LeafTreesAll(ts: seq<Tree>): seq<Tree>
    decreases ts, 1
  {
    if ts == [] then [] else LeafTrees(ts[0]) + LeafTreesAll(ts[1..])
  }

  lemma {:induction false} LeafTreesAllAppend(a: seq<Tree>, b: seq<Tree>)
    ensures LeafTreesAll(a + b) == LeafTreesAll(a) + LeafTreesAll(b)
  {
    if a == [] {
      assert a + b == b;
    } else {
      LeafTreesAllAppend(a[1..], b);
      TailAppend(a, b);
    }
  }

  lemma LeafTreesAllAt(ts: seq<Tree>, i: nat)
    requires i < |ts|
    ensures LeafTreesAll(ts) == LeafTreesAll(ts[..i]) + LeafTrees(ts[i]) + LeafTreesAll(ts[i + 1..])
  {
    SplitAt(ts, i);
    LeafTreesAllAppend(ts[..i], ts[i..]);
  }

  /** The leaves hold the tree's pairs in order. */
  lemma {:induction false} LeafTreesFlat(t: Tree)
    ensures FlatAll(LeafTrees(t)) == Flat(t)
    decreases t, 0
  {
    if t.Leaf? {
      assert FlatAll([t]) == Flat(t) + FlatAll([]);
    } else {
      LeafTreesAllFlat(t.kids);
    }
  }

  lemma {:induction false} LeafTreesAllFlat(ts: seq<Tree>)
    ensures FlatAll(LeafTreesAll(ts)) == FlatAll(ts)
    decreases ts, 1
  {
    if ts != [] {
      LeafTreesFlat(ts[0]);
      LeafTreesAllFlat(ts[1..]);
      FlatAllAppend(LeafTrees(ts[0]), LeafTreesAll(ts[1..]));
    }
  }

  /** Every pair left of the leaf a descent for `k` reaches is below `k`, every
      pair right of it above. */
  lemma {:induction false} LeafForSplits(t: Tree, h: nat, lo: int, hi: int, m: nat, k: int) returns (a: seq<Tree>, c: seq<Tree>)
    requires WF(t, h, lo, hi, m) && lo <= k < hi
    ensures LeafTrees(t) == a + [LeafFor(t, h, lo, hi, m, k)] + c
    ensures Below(FlatAll(a), k) && Above(FlatAll(c), k)
    decreases h
  {
    if t.Leaf? {
      a, c := [], [];
    } else {
      var i := UpperBound(t.keys, k);
      DescendSplit(t.keys, t.kids, h, lo, hi, m, k);
      var a', c' := LeafForSplits(t.kids[i], h - 1, Lo(t.keys, i, lo), Hi(t.keys, i, hi), m, k);
      var b, d := LeafTreesAll(t.kids[..i]), LeafTreesAll(t.kids[i + 1..]);
      LeafTreesAllAt(t.kids, i);
      LeafTreesAllFlat(t.kids[..i]);
      LeafTreesAllFlat(t.kids[i + 1..]);
      a, c := b + a', c' + d;
      WidenSplit(b, a', LeafFor(t, h, lo, hi, m, k), c', d, k);
    }
  }

  lemma WidenSplit(b: seq<Tree>, a: seq<Tree>, x: Tree, c: seq<Tree>, d: seq<Tree>, k: int)
    requires Below(FlatAll(a), k) && Above(FlatAll(c), k) && Below(FlatAll(b), k) && Above(FlatAll(d), k)
    ensures Below(FlatAll(b + a), k) && Above(FlatAll(c + d), k)
    ensures b + (a + [x] + c) + d == (b + a) + [x] + (c + d)
  {
    FlatAllAppend(b, a);
    FlatAllAppend(c, d);
    Regroup(b, a, [x], c, d);
  }

  /** The pairs with keys in [x, y]. */
  function Range(s: Pairs, x: int, y: int): Pairs {
    if s == [] then [] else (if x <= s[0].0 <= y then [s[0]] else []) + Range(s[1..], x, y)
  }

  lemma {:induction false} RangeAppend(a: Pairs, b: Pairs, x: int, y: int)
    ensures Range(a + b, x, y) == Range(a, x, y) + Range(b, x, y)
  {
    if a == [] {
      assert a + b == b;
    } else {
      RangeAppend(a[1..], b, x, y);
      TailAppend(a, b);
    }
  }

  lemma {:induction false} RangeOutside(s: Pairs, x: int, y: int)
    requires forall i :: 0 <= i < |s| ==> s[i].0 < x || y < s[i].0
    ensures Range(s, x, y) == []
  {
    if s != [] {
      RangeOutside(s[1..], x, y);
    }
  }

  /** What a range scan with an early-stopping visitor sees: `visitor` is shown the
      pairs one at a time, with everything it has seen so far, and answers whether
      to go on. */
  function Visits(todo: Pairs, seen: Pairs, visitor: Pairs -> bool): (r: (Pairs, bool)) {
    if todo == [] then (seen, true)
    else
      var s := seen + [todo[0]];
      if visitor(s) then Visits(todo[1..], s, visitor) else (s, false)
  }

  /** A scan shows a prefix of the range, each pair once and in order, and all of it
      unless the visitor stops. */
  lemma {:induction false} VisitsPrefix(todo: Pairs, seen: Pairs, visitor: Pairs -> bool)
    ensures var r := Visits(todo, seen, visitor);
            && |seen| <= |r.0| <= |seen| + |todo|
            && r.0 == seen + todo[..|r.0| - |seen|]
            && (r.1 ==> r.0 == seen + todo)
            && (!r.1 ==> !visitor(r.0))
            && (forall n :: |seen| < n < |r.0| ==> visitor(r.0[..n]))
  {
    if todo != [] {
      var s := seen + [todo[0]];
      if visitor(s) {
        VisitsPrefix(todo[1..], s, visitor);
        var r := Visits(todo[1..], s, visitor);
        assert s + todo[1..] == seen + todo;
        assert r.0 == seen + todo[..|r.0| - |seen|];
        forall n | |seen| < n < |r.0| ensures visitor(r.0[..n]) {
          if n == |s| { assert r.0[..n] == s; }
        }
      }
    }
  }

  // ------------------------------------------------------------------- insertion

  lemma ZipAppend(a: seq<int>, x: seq<int>, b: seq<int>, y: seq<int>)
    requires |a| == |x| && |b| == |y|
    ensures Zip(a + b, x + y) == Zip(a, x) + Zip(b, y)
  {
  }

  lemma ZipCut(keys: seq<int>, vals: seq<int>, i: nat)
    requires i <= |keys| == |vals|
    ensures Zip(keys, vals) == Zip(keys[..i], vals[..i]) + Zip(keys[i..], vals[i..])
  {
  }

  lemma SortedWith(keys: seq<int>, k: int, i: nat)
    requires Sorted(keys) && i <= |keys|
    requires (forall j :: 0 <= j < i ==> keys[j] < k) && (forall j :: i <= j < |keys| ==> k < keys[j])
    ensures Sorted(keys[..i] + [k] + keys[i..])
  {
  }

  /** Adding a key to a leaf's arrays is ordered insertion. */
  lemma LeafPut(keys: seq<int>, vals: seq<int>, k: int, v: int)
    requires |keys| == |vals| && Sorted(keys)
    ensures var i := LowerBound(keys, k);
            i == |keys| || keys[i] != k ==>
              && Sorted(keys[..i] + [k] + keys[i..])
              && Zip(keys[..i] + [k] + keys[i..], vals[..i] + [v] + vals[i..]) == Put(Zip(keys, vals), k, v)
  {
    var i := LowerBound(keys, k);
    if i == |keys| || keys[i] != k {
      SortedWith(keys, k, i);
      ZipInsert(keys, vals, i, k, v);
      ZipCut(keys, vals, i);
      PutBetween(Zip(keys[..i], vals[..i]), Zip(keys[i..], vals[i..]), k, v);
    }
  }

  lemma ZipInsert(keys: seq<int>, vals: seq<int>, i: nat, k: int, v: int)
    requires i <= |keys| == |vals|
    ensures Zip(keys[..i] + [k] + keys[i..], vals[..i] + [v] + vals[i..]) ==
            Zip(keys[..i], vals[..i]) + [(k, v)] + Zip(keys[i..], vals[i..])
  {
    ZipAppend(keys[..i] + [k], vals[..i] + [v], keys[i..], vals[i..]);
    ZipAppend(keys[..i], vals[..i], [k], [v]);
    assert Zip([k], [v]) == [(k, v)];
  }

  lemma PutBetween(a: Pairs, c: Pairs, k: int, v: int)
    requires Below(a, k) && Above(c, k)
    ensures Put(a + c, k, v) == a + [(k, v)] + c
  {
    PutMiddle(a, [], c, k, v);
    assert a + [] + c == a + c;
    assert Put([], k, v) == [(k, v)];
  }

  /** Widening the key range keeps a tree well-formed. */
  lemma {:induction false} WFWiden(t: Tree, h: nat, lo: int, hi: int, lo': int, hi': int, m: nat)
    requires WF(t, h, lo, hi, m) && lo' <= lo && hi <= hi'
    ensures WF(t, h, lo', hi', m)
    decreases h
  {
    if t.Node? {
      forall i | 0 <= i < |t.kids| ensures WF(t.kids[i], h - 1, Lo(t.keys, i, lo'), Hi(t.keys, i, hi'), m) {
        WFWiden(t.kids[i], h - 1, Lo(t.keys, i, lo), Hi(t.keys, i, hi), Lo(t.keys, i, lo'), Hi(t.keys, i, hi'), m);
      }
    }
  }

  /** Child j of a node whose child i was replaced by two, and its key range. */
  lemma SpliceAt(keys: seq<int>, kids: seq<Tree>, lo: int, hi: int, i: nat, l: Tree, s: int, r: Tree, j: nat)
    requires |kids| == |keys| + 1 && i < |kids| && j <= |kids|
    ensures var ks, cs := keys[..i] + [s] + keys[i..], kids[..i] + [l, r] + kids[i + 1..];
            && (j < i ==> cs[j] == kids[j] && Lo(ks, j, lo) == Lo(keys, j, lo) && Hi(ks, j, hi) == Hi(keys, j, hi))
            && (j == i ==> cs[j] == l && Lo(ks, j, lo) == Lo(keys, i, lo) && Hi(ks, j, hi) == s)
            && (j == i + 1 ==> cs[j] == r && Lo(ks, j, lo) == s && Hi(ks, j, hi) == Hi(keys, i, hi))
            && (j > i + 1 ==> cs[j] == kids[j - 1] && Lo(ks, j, lo) == Lo(keys, j - 1, lo) && Hi(ks, j, hi) == Hi(keys, j - 1, hi))
  {
  }

  /** Replacing child i by the two halves of its split keeps a node's order. */
  lemma SpliceBody(keys: seq<int>, kids: seq<Tree>, h: nat, lo: int, hi: int, m: nat, i: nat, l: Tree, s: int, r: Tree)
    requires Body(keys, kids, h, lo, hi, m) && i < |kids|
    requires Lo(keys, i, lo) < s < Hi(keys, i, hi)
    requires WF(l, h - 1, Lo(keys, i, lo), s, m) && WF(r, h - 1, s, Hi(keys, i, hi), m)
    ensures Body(keys[..i] + [s] + keys[i..], kids[..i] + [l, r] + kids[i + 1..], h, lo, hi, m)
  {
    var ks, cs := keys[..i] + [s] + keys[i..], kids[..i] + [l, r] + kids[i + 1..];
    SortedWith(keys, s, i);
    forall j | 0 <= j < |cs| ensures WF(cs[j], h - 1, Lo(ks, j, lo), Hi(ks, j, hi), m) {
      SpliceAt(keys, kids, lo, hi, i, l, s, r, j);
    }
  }

  /** Cutting a node around its key c yields two ordered nodes. */
  lemma SplitBody(ks: seq<int>, cs: seq<Tree>, h: nat, lo: int, hi: int, m: nat, c: nat)
    requires Body(ks, cs, h, lo, hi, m) && c < |ks|
    ensures Body(ks[..c], cs[..c + 1], h, lo, ks[c], m)
    ensures Body(ks[c + 1..], cs[c + 1..], h, ks[c], hi, m)
  {
    forall j | 0 <= j < c + 1 ensures WF(cs[j], h - 1, Lo(ks[..c], j, lo), Hi(ks[..c], j, ks[c]), m) {
      assert WF(cs[j], h - 1, Lo(ks, j, lo), Hi(ks, j, hi), m);
    }
    var ks', cs' := ks[c + 1..], cs[c + 1..];
    forall j | 0 <= j < |cs'| ensures WF(cs'[j], h - 1, Lo(ks', j, ks[c]), Hi(ks', j, hi), m) {
      assert WF(cs[c + 1 + j], h - 1, Lo(ks, c + 1 + j, lo), Hi(ks, c + 1 + j, hi), m);
    }
  }

  lemma SpliceFlat(kids: seq<Tree>, i: nat, l: Tree, r: Tree)
    requires i < |kids|
    ensures FlatAll(kids[..i] + [l, r] + kids[i + 1..]) ==
            FlatAll(kids[..i]) + (Flat(l) + Flat(r)) + FlatAll(kids[i + 1..])
  {
    FlatAllAppend(kids[..i] + [l, r], kids[i + 1..]);
    FlatAllAppend(kids[..i], [l, r]);
    assert [l, r][1..] == [r];
    assert FlatAll([r]) == Flat(r) + FlatAll([]);
  }

  /** A result of height h over [lo, hi) that stores exactly `flat`: one
      well-formed tree, or two around a separator. */
  ghost predicate Stores(r: Ins, h: nat, lo: int, hi: int, m: nat, flat: Pairs) {
    match r
    case Dup => false
    case One(u) => WF(u, h, lo, hi, m) && Flat(u) == flat
    case Two(a, s, b) => lo < s < hi && WF(a, h, lo, s, m) && WF(b, h, s, hi, m) && Flat(a) + Flat(b) == flat
  }

  ghost predicate InsertOk(was: Pairs, h: nat, lo: int, hi: int, m: nat, k: int, v: int, r: Ins) {
    if r.Dup? then HasKey(was, k)
    else !HasKey(was, k) && Stores(r, h, lo, hi, m, Put(was, k, v))
  }

  lemma LeafSplitOk(p: nat, q: nat, ks: seq<int>, vs: seq<int>, lo: int, hi: int, m: nat)
    requires m >= 4 && |ks| == |vs| == m && Sorted(ks) && Within(ks, lo, hi)
    ensures var c := (m - 1) / 2;
            var a, b := Leaf(p, ks[..c], vs[..c]), Leaf(q, ks[c..], vs[c..]);
            && lo < ks[c] < hi
            && WF(a, 1, lo, ks[c], m) && WF(b, 1, ks[c], hi, m)
            && Flat(a) + Flat(b) == Zip(ks, vs)
  {
    var c := (m - 1) / 2;
    assert lo <= ks[0] < ks[c];
    assert Zip(ks, vs) == Zip(ks[..c], vs[..c]) + Zip(ks[c..], vs[c..]);
  }

  lemma LeafHasKey(keys: seq<int>, vals: seq<int>, k: int)
    requires |keys| == |vals| && Sorted(keys)
    ensures var i := LowerBound(keys, k);
            HasKey(Zip(keys, vals), k) <==> i < |keys| && keys[i] == k
  {
    var i, z := LowerBound(keys, k), Zip(keys, vals);
    assert i < |keys| ==> z[i].0 == keys[i];
    assert forall j :: 0 <= j < |z| ==> z[j].0 == keys[j];
  }

  lemma LeafInsOk(p: nat, keys: seq<int>, vals: seq<int>, lo: int, hi: int, m: nat, k: int, v: int, nx: nat)
    requires m >= 4 && |keys| == |vals| < m && Sorted(keys) && Within(keys, lo, hi) && lo <= k < hi
    ensures InsertOk(Zip(keys, vals), 1, lo, hi, m, k, v, LeafIns(p, keys, vals, m, k, v, nx))
  {
    var i := LowerBound(keys, k);
    LeafHasKey(keys, vals, k);
    if !(i < |keys| && keys[i] == k) {
      var ks, vs := keys[..i] + [k] + keys[i..], vals[..i] + [v] + vals[i..];
      assert Sorted(ks) && Zip(ks, vs) == Put(Zip(keys, vals), k, v) by { LeafPut(keys, vals, k, v); }
      assert Within(ks, lo, hi);
      if |ks| < m {
        assert Flat(Leaf(p, ks, vs)) == Zip(ks, vs);
      } else {
        LeafSplitOk(p, nx, ks, vs, lo, hi, m);
      }
    }
  }

  lemma NodeSplitOk(p: nat, q: nat, ks: seq<int>, cs: seq<Tree>, h: nat, lo: int, hi: int, m: nat)
    requires m >= 4 && |ks| == m && Body(ks, cs, h, lo, hi, m)
    ensures var c := m / 2;
            var a, b := Node(p, ks[..c], cs[..c + 1]), Node(q, ks[c + 1..], cs[c + 1..]);
            && lo < ks[c] < hi
            && WF(a, h, lo, ks[c], m) && WF(b, h, ks[c], hi, m)
            && Flat(a) + Flat(b) == FlatAll(cs)
  {
    var c := m / 2;
    SplitBody(ks, cs, h, lo, hi, m, c);
    FlatCut(cs, c + 1);
  }

  lemma FlatCut(ts: seq<Tree>, i: nat)
    requires i < |ts|
    ensures FlatAll(ts) == FlatAll(ts[..i]) + FlatAll(ts[i..])
  {
    SplitAt(ts, i);
    FlatAllAppend(ts[..i], ts[i..]);
  }

  lemma NodeOneOk(p: nat, keys: seq<int>, kids: seq<Tree>, h: nat, lo: int, hi: int, m: nat, i: nat, u: Tree)
    requires |keys| < m && Body(keys, kids, h, lo, hi, m) && i < |kids|
    requires WF(u, h - 1, Lo(keys, i, lo), Hi(keys, i, hi), m)
    ensures WF(Node(p, keys, kids[i := u]), h, lo, hi, m)
    ensures Flat(Node(p, keys, kids[i := u])) == FlatAll(kids[..i]) + Flat(u) + FlatAll(kids[i + 1..])
  {
    FlatAllAt(kids[i := u], i);
    assert kids[i := u][..i] == kids[..i] && kids[i := u][i + 1..] == kids[i + 1..];
  }

  lemma NodeTwoOk(p: nat, keys: seq<int>, kids: seq<Tree>, h: nat, lo: int, hi: int, m: nat, i: nat, l: Tree, s: int, r: Tree, nx: nat)
    requires m >= 4 && |keys| < m && Body(keys, kids, h, lo, hi, m) && i < |kids|
    requires Lo(keys, i, lo) < s < Hi(keys, i, hi)
    requires WF(l, h - 1, Lo(keys, i, lo), s, m) && WF(r, h - 1, s, Hi(keys, i, hi), m)
    ensures Stores(NodeIns(p, keys, kids, m, i, Two(l, s, r), nx), h, lo, hi, m,
                   FlatAll(kids[..i]) + (Flat(l) + Flat(r)) + FlatAll(kids[i + 1..]))
  {
    var ks, cs := keys[..i] + [s] + keys[i..], kids[..i] + [l, r] + kids[i + 1..];
    SpliceBody(keys, kids, h, lo, hi, m, i, l, s, r);
    SpliceFlat(kids, i, l, r);
    SplitNodeOk(p, nx, ks, cs, h, lo, hi, m);
  }

  lemma SplitNodeOk(p: nat, q: nat, ks: seq<int>, cs: seq<Tree>, h: nat, lo: int, hi: int, m: nat)
    requires m >= 4 && |ks| <= m && Body(ks, cs, h, lo, hi, m)
    ensures Stores(SplitNode(p, ks, cs, m, q), h, lo, hi, m, FlatAll(cs))
  {
    if |ks| >= m {
      NodeSplitOk(p, q, ks, cs, h, lo, hi, m);
    }
  }

  lemma NodeInsOk(p: nat, keys: seq<int>, kids: seq<Tree>, h: nat, lo: int, hi: int, m: nat, k: int, v: int, sub: Ins, nx: nat)
    requires m >= 4 && |keys| < m && Body(keys, kids, h, lo, hi, m) && lo <= k < hi
    requires var i := UpperBound(keys, k);
             InsertOk(Flat(kids[i]), h - 1, Lo(keys, i, lo), Hi(keys, i, hi), m, k, v, sub) == true
    ensures InsertOk(FlatAll(kids), h, lo, hi, m, k, v, NodeIns(p, keys, kids, m, UpperBound(keys, k), sub, nx)) == true
  {
    var i := UpperBound(keys, k);
    DescendSplit(keys, kids, h, lo, hi, m, k);
    var a, x, c := FlatAll(kids[..i]), Flat(kids[i]), FlatAll(kids[i + 1..]);
    HasKeyMiddle(a, x, c, k);
    PutMiddle(a, x, c, k, v);
    match sub
    case Dup =>
    case One(u) => NodeOneOk(p, keys, kids, h, lo, hi, m, i, u);
    case Two(l, s, r) => NodeTwoOk(p, keys, kids, h, lo, hi, m, i, l, s, r, nx);
  }

  /** Insertion refines ordered insertion, for every tree, key and order, and
      reports a duplicate exactly when the key is already stored. */
  lemma {:induction false} InsertRefines(t: Tree, h: nat, lo: int, hi: int, m: nat, k: int, v: int, nx: nat)
    requires m >= 4 && WF(t, h, lo, hi, m) && lo <= k < hi
    ensures InsertOk(Flat(t), h, lo, hi, m, k, v, Insert(t, h, lo, hi, m, k, v, nx)) == true
    decreases h
  {
    if t.Leaf? {
      LeafInsOk(t.ptr, t.keys, t.vals, lo, hi, m, k, v, nx);
    } else {
      var i := UpperBound(t.keys, k);
      InsertRefines(t.kids[i], h - 1, Lo(t.keys, i, lo), Hi(t.keys, i, hi), m, k, v, nx);
      InsertNodeRefines(t, h, lo, hi, m, k, v, nx);
    }
  }

  lemma InsertNodeRefines(t: Tree, h: nat, lo: int, hi: int, m: nat, k: int, v: int, nx: nat)
    requires m >= 4 && t.Node? && WF(t, h, lo, hi, m) && lo <= k < hi
    requires var i := UpperBound(t.keys, k);
             var x, y := Lo(t.keys, i, lo), Hi(t.keys, i, hi);
             InsertOk(Flat(t.kids[i]), h - 1, x, y, m, k, v, Insert(t.kids[i], h - 1, x, y, m, k, v, nx)) == true
    ensures InsertOk(Flat(t), h, lo, hi, m, k, v, Insert(t, h, lo, hi, m, k, v, nx)) == true
  {
    var i := UpperBound(t.keys, k);
    var sub := Insert(t.kids[i], h - 1, Lo(t.keys, i, lo), Hi(t.keys, i, hi), m, k, v, nx);
    assert Body(t.keys, t.kids, h, lo, hi, m) && Flat(t) == FlatAll(t.kids);
    assert Insert(t, h, lo, hi, m, k, v, nx) == NodeIns(t.ptr, t.keys, t.kids, m, i, sub, nx + h - 1);
    NodeInsOk(t.ptr, t.keys, t.kids, h, lo, hi, m, k, v, sub, nx + h - 1);
  }

  // -------------------------------------------------------------------- deletion

  /** The list without the pair of key `k`. */
  function Drop(s: Pairs, k: int): Pairs {
    if s == [] then [] else if s[0].0 == k then Drop(s[1..], k) else [s[0]] + Drop(s[1..], k)
  }

  lemma {:induction false} DropAppend(a: Pairs, b: Pairs, k: int)
    ensures Drop(a + b, k) == Drop(a, k) + Drop(b, k)
  {
    if a == [] {
      assert a + b == b;
    } else {
      DropAppend(a[1..], b, k);
      TailAppend(a, b);
    }
  }

  lemma {:induction false} DropAbsent(s: Pairs, k: int)
    requires forall i :: 0 <= i < |s| ==> s[i].0 != k
    ensures Drop(s, k) == s
  {
    if s != [] {
      DropAbsent(s[1..], k);
    }
  }

  /** Dropping a key from the list is removing it from the map. */
  lemma {:induction false} DropIsMapRemove(s: Pairs, k: int)
    ensures ToMap(Drop(s, k)) == ToMap(s) - {k}
  {
    if s != [] {
      DropIsMapRemove(s[1..], k);
      assert s[0].0 != k ==> Drop(s, k)[1..] == Drop(s[1..], k);
    }
  }

  lemma DropThree(a: Pairs, x: Pairs, c: Pairs, k: int)
    requires Below(a, k) && Above(c, k)
    ensures Drop(a + x + c, k) == a + Drop(x, k) + c
  {
    DropAppend(a + x, c, k);
    DropAppend(a, x, k);
    DropAbsent(a, k);
    DropAbsent(c, k);
  }

  lemma LeafDrop(keys: seq<int>, vals: seq<int>, k: int)
    requires |keys| == |vals| && Sorted(keys)
    ensures var i := LowerBound(keys, k);
            if i < |keys| && keys[i] == k
            then Zip(keys[..i] + keys[i + 1..], vals[..i] + vals[i + 1..]) == Drop(Zip(keys, vals), k)
            else Drop(Zip(keys, vals), k) == Zip(keys, vals)
  {
    var i := LowerBound(keys, k);
    if i < |keys| && keys[i] == k {
      ZipDrop(keys, vals, i, k);
    } else {
      DropAbsent(Zip(keys, vals), k);
    }
  }

  lemma ZipDrop(keys: seq<int>, vals: seq<int>, i: nat, k: int)
    requires i < |keys| == |vals| && Sorted(keys) && keys[i] == k
    ensures Zip(keys[..i] + keys[i + 1..], vals[..i] + vals[i + 1..]) == Drop(Zip(keys, vals), k)
  {
    ZipAround(keys, vals, i);
    DropSingle(Zip(keys[..i], vals[..i]), k, vals[i], Zip(keys[i + 1..], vals[i + 1..]));
    ZipAppend(keys[..i], vals[..i], keys[i + 1..], vals[i + 1..]);
  }

  lemma ZipAround(keys: seq<int>, vals: seq<int>, i: nat)
    requires i < |keys| == |vals|
    ensures Zip(keys, vals) == Zip(keys[..i], vals[..i]) + [(keys[i], vals[i])] + Zip(keys[i + 1..], vals[i + 1..])
  {
  }

  lemma DropSingle(a: Pairs, k: int, v: int, c: Pairs)
    requires Below(a, k) && Above(c, k)
    ensures Drop(a + [(k, v)] + c, k) == a + c
  {
    DropThree(a, [(k, v)], c, k);
    assert [(k, v)][1..] == [];
    assert a + [] + c == a + c;
  }

  /** Lazy deletion keeps a tree well-formed, stale separators included, and
      removes exactly its key. */
  lemma {:induction false} DeleteRefines(t: Tree, h: nat, lo: int, hi: int, m: nat, k: int)
    requires WF(t, h, lo, hi, m) && lo <= k < hi
    ensures WF(Delete(t, h, lo, hi, m, k), h, lo, hi, m) == true
    ensures Flat(Delete(t, h, lo, hi, m, k)) == Drop(Flat(t), k)
    decreases h
  {
    if t.Leaf? {
      DeleteLeafRefines(t, h, lo, hi, m, k);
    } else {
      var i := UpperBound(t.keys, k);
      DescendSplit(t.keys, t.kids, h, lo, hi, m, k);
      var u := Delete(t.kids[i], h - 1, Lo(t.keys, i, lo), Hi(t.keys, i, hi), m, k);
      DeleteRefines(t.kids[i], h - 1, Lo(t.keys, i, lo), Hi(t.keys, i, hi), m, k);
      DeleteNodeRefines(t, h, lo, hi, m, k, i, u);
      assert Delete(t, h, lo, hi, m, k) == Node(t.ptr, t.keys, t.kids[i := u]);
    }
  }

  lemma DeleteLeafRefines(t: Tree, h: nat, lo: int, hi: int, m: nat, k: int)
    requires t.Leaf? && WF(t, h, lo, hi, m) && lo <= k < hi
    ensures WF(Delete(t, h, lo, hi, m, k), h, lo, hi, m) == true
    ensures Flat(Delete(t, h, lo, hi, m, k)) == Drop(Flat(t), k)
  {
    LeafDrop(t.keys, t.vals, k);
  }

  lemma DeleteNodeRefines(t: Tree, h: nat, lo: int, hi: int, m: nat, k: int, i: nat, u: Tree)
    requires t.Node? && WF(t, h, lo, hi, m) && lo <= k < hi && i == UpperBound(t.keys, k) < |t.kids|
    requires WF(u, h - 1, Lo(t.keys, i, lo), Hi(t.keys, i, hi), m) && Flat(u) == Drop(Flat(t.kids[i]), k)
    ensures WF(Node(t.ptr, t.keys, t.kids[i := u]), h, lo, hi, m) == true
    ensures Flat(Node(t.ptr, t.keys, t.kids[i := u])) == Drop(Flat(t), k)
  {
    DescendSplit(t.keys, t.kids, h, lo, hi, m, k);
    NodeOneOk(t.ptr, t.keys, t.kids, h, lo, hi, m, i, u);
    DropThree(FlatAll(t.kids[..i]), Flat(t.kids[i]), FlatAll(t.kids[i + 1..]), k);
  }

  // ------------------------------------------------------------------- occupancy

  /** Minimum fill of a tree that was never deleted from: every leaf but the root
      has m/2 - 1 keys, every internal node m/2 children, an internal root two. */
  ghost predicate Filled(t: Tree, m: nat, root: bool) {
    match t
    case Leaf(_, keys, _) => root || |keys| >= m / 2 - 1
    case Node(_, _, kids) =>
      |kids| >= (if root then 2 else m / 2) && forall i :: 0 <= i < |kids| ==> Filled(kids[i], m, false)
  }

  ghost predicate InsFilled(r: Ins, m: nat, root: bool) {
    match r
    case Dup => true
    case One(t) => Filled(t, m, root)
    case Two(a, _, b) => Filled(a, m, false) && Filled(b, m, false)
  }

  lemma NodeInsFilled(p: nat, keys: seq<int>, kids: seq<Tree>, m: nat, i: nat, sub: Ins, nx: nat, root: bool)
    requires m >= 4 && m % 2 == 0 && i < |kids| == |keys| + 1 <= m
    requires Filled(Node(p, keys, kids), m, root) && InsFilled(sub, m, false)
    ensures InsFilled(NodeIns(p, keys, kids, m, i, sub, nx), m, root)
  {
  }

  /** Insertion keeps the minimum fill. */
  lemma {:induction false} InsertFilled(t: Tree, h: nat, lo: int, hi: int, m: nat, k: int, v: int, nx: nat, root: bool)
    requires m >= 4 && m % 2 == 0 && WF(t, h, lo, hi, m) && Filled(t, m, root)
    ensures InsFilled(Insert(t, h, lo, hi, m, k, v, nx), m, root)
    decreases h
  {
    if t.Node? {
      var i := UpperBound(t.keys, k);
      InsertFilled(t.kids[i], h - 1, Lo(t.keys, i, lo), Hi(t.keys, i, hi), m, k, v, nx, false);
      var sub := Insert(t.kids[i], h - 1, Lo(t.keys, i, lo), Hi(t.keys, i, hi), m, k, v, nx);
      NodeInsFilled(t.ptr, t.keys, t.kids, m, i, sub, nx + h - 1, root);
    }
  }

  ghost function Pow(b: nat, e: nat): nat {
    if e == 0 then 1 else b * Pow(b, e - 1)
  }

  lemma {:induction false} FlatAllAtLeast(ts: seq<Tree>, b: nat)
    requires forall i :: 0 <= i < |ts| ==> |Flat(ts[i])| >= b
    ensures |FlatAll(ts)| >= |ts| * b
  {
    if ts != [] {
      FlatAllAtLeast(ts[1..], b);
      assert |ts| * b == b + (|ts| - 1) * b;
    }
  }

  lemma PowStep(b: nat, e: nat, c: nat)
    ensures Pow(b, e + 1) * c == b * (Pow(b, e) * c)
  {
    assert Pow(b, e + 1) == b * Pow(b, e);
    assert (b * Pow(b, e)) * c == b * (Pow(b, e) * c);
  }

  lemma KidsCount(kids: seq<Tree>, b: nat, n: nat)
    requires |kids| >= n && forall i :: 0 <= i < |kids| ==> |Flat(kids[i])| >= b
    ensures |FlatAll(kids)| >= n * b
  {
    FlatAllAtLeast(kids, b);
    MulLe(n, |kids|, b);
  }

  /** A filled subtree of height h holds at least (m/2)^(h-1) * (m/2 - 1) keys. */
  lemma {:induction false} FilledCount(t: Tree, h: nat, lo: int, hi: int, m: nat)
    requires m >= 4 && WF(t, h, lo, hi, m) && Filled(t, m, false)
    ensures |Flat(t)| >= Pow(m / 2, h - 1) * (m / 2 - 1)
    decreases h
  {
    if t.Leaf? {
      assert Pow(m / 2, 0) == 1;
    } else {
      var b := Pow(m / 2, h - 2) * (m / 2 - 1);
      forall i | 0 <= i < |t.kids| ensures |Flat(t.kids[i])| >= b {
        FilledCount(t.kids[i], h - 1, Lo(t.keys, i, lo), Hi(t.keys, i, hi), m);
      }
      KidsCount(t.kids, b, m / 2);
      PowStep(m / 2, h - 2, m / 2 - 1);
    }
  }

  /** An insert-only tree of height h >= 2 holds at least
      2 * (m/2)^(h-2) * (m/2 - 1) keys, so its height is logarithmic in its size. */
  lemma HeightIsLogarithmic(t: Tree, h: nat, lo: int, hi: int, m: nat)
    requires m >= 4 && h >= 2 && WF(t, h, lo, hi, m) && Filled(t, m, true)
    ensures |Flat(t)| >= 2 * (Pow(m / 2, h - 2) * (m / 2 - 1))
  {
    var b := Pow(m / 2, h - 2) * (m / 2 - 1);
    KidsFilled(t, h, lo, hi, m);
    KidsCount(t.kids, b, 2);
  }

  lemma KidsFilled(t: Tree, h: nat, lo: int, hi: int, m: nat)
    requires m >= 4 && h >= 2 && WF(t, h, lo, hi, m) && Filled(t, m, true)
    ensures t.Node? && |t.kids| >= 2 && forall i :: 0 <= i < |t.kids| ==> |Flat(t.kids[i])| >= Pow(m / 2, h - 2) * (m / 2 - 1)
  {
    forall i | 0 <= i < |t.kids| ensures |Flat(t.kids[i])| >= Pow(m / 2, h - 2) * (m / 2 - 1) {
      FilledCount(t.kids[i], h - 1, Lo(t.keys, i, lo), Hi(t.keys, i, hi), m);
    }
  }

  // ------------------------------------------------------------------ bulk builds

  ghost predicate HasFirst(t: Tree) {
    if t.Leaf? then t.keys != [] else t.kids != [] && HasFirst(t.kids[0])
  }

  /** The key first_key finds by walking first children. */
  ghost function FirstKey(t: Tree): int
    requires HasFirst(t)
  {
    if t.Leaf? then t.keys[0] else FirstKey(t.kids[0])
  }

  /** A level under construction: trees of height h side by side, tree i holding
      keys in [F[i], F[i+1]) and starting, from the second on, with key F[i]. */
  ghost predicate Forest(ts: seq<Tree>, F: seq<int>, h: nat, m: nat) {
    && |F| == |ts| + 1 && Sorted(F)
    && (forall i :: 0 <= i < |ts| ==> WF(ts[i], h, F[i], F[i + 1], m) && HasFirst(ts[i]))
    && (forall i {:trigger ts[i]} :: 0 < i < |ts| ==> FirstKey(ts[i]) == F[i])
  }

  /** Grouping c neighbours of a level under a new node with their first keys as
      separators gives a well-formed tree over their joint range. */
  lemma GroupWF(q: nat, ts: seq<Tree>, F: seq<int>, h: nat, m: nat, start: nat, c: nat)
    requires Forest(ts, F, h, m) && h > 0 && 0 < c <= m && start + c <= |ts|
    ensures var t := Node(q, F[start + 1..start + c], ts[start..start + c]);
            && WF(t, h + 1, F[start], F[start + c], m) && HasFirst(t)
            && FirstKey(t) == FirstKey(ts[start])
  {
    var t := Node(q, F[start + 1..start + c], ts[start..start + c]);
    forall i | 0 <= i < |t.kids| ensures WF(t.kids[i], h, Lo(t.keys, i, F[start]), Hi(t.keys, i, F[start + c]), m) {
      assert t.kids[i] == ts[start + i];
      assert Lo(t.keys, i, F[start]) == F[start + i] && Hi(t.keys, i, F[start + c]) == F[start + i + 1];
    }
  }

  lemma ForestAppend(ts: seq<Tree>, F: seq<int>, h: nat, m: nat, t: Tree, hi: int)
    requires Forest(ts, F, h, m) && F[|ts|] < hi && WF(t, h, F[|ts|], hi, m) && HasFirst(t)
    requires ts != [] ==> FirstKey(t) == F[|ts|]
    ensures Forest(ts + [t], F + [hi], h, m)
  {
    var ts', F' := ts + [t], F + [hi];
    assert forall i :: 0 <= i < |F| ==> F[i] <= F[|ts|];
    forall i | 0 <= i < |ts'| ensures WF(ts'[i], h, F'[i], F'[i + 1], m) && HasFirst(ts'[i]) {
      if i < |ts| { assert ts'[i] == ts[i]; }
    }
  }

  lemma GroupAppend(ts: seq<Tree>, F: seq<int>, h: nat, m: nat, ps: seq<Tree>, G: seq<int>, start: nat, c: nat, q: nat)
    requires Forest(ts, F, h, m) && h > 0 && 0 < c <= m && start + c <= |ts|
    requires Forest(ps, G, h + 1, m) && G[|ps|] == F[start] && (ps != [] ==> start > 0)
    ensures Forest(ps + [Node(q, F[start + 1..start + c], ts[start..start + c])], G + [F[start + c]], h + 1, m)
  {
    GroupWF(q, ts, F, h, m, start, c);
    ForestAppend(ps, G, h + 1, m, Node(q, F[start + 1..start + c], ts[start..start + c]), F[start + c]);
  }

  /** The largest number of keys in a node. */
  ghost predicate NodesBelow(t: Tree, m: nat) {
    |t.keys| < m && (t.Node? ==> forall i :: 0 <= i < |t.kids| ==> NodesBelow(t.kids[i], m))
  }

  /** A failed bulk build leaves the tree but not its order: the tree is well-formed
      for the new order exactly when every node has room for it. */
  lemma {:induction false} OrderChange(t: Tree, h: nat, lo: int, hi: int, m: nat, m': nat)
    requires WF(t, h, lo, hi, m)
    ensures WF(t, h, lo, hi, m') <==> NodesBelow(t, m')
    decreases h
  {
    if t.Node? {
      forall i | 0 <= i < |t.kids|
        ensures WF(t.kids[i], h - 1, Lo(t.keys, i, lo), Hi(t.keys, i, hi), m') <==> NodesBelow(t.kids[i], m')
      {
        OrderChange(t.kids[i], h - 1, Lo(t.keys, i, lo), Hi(t.keys, i, hi), m, m');
      }
    }
  }

  lemma {:induction false} NodesBelowMore(t: Tree, m: nat, m': nat)
    requires NodesBelow(t, m) && m <= m'
    ensures NodesBelow(t, m')
  {
    if t.Node? {
      forall i | 0 <= i < |t.kids| ensures NodesBelow(t.kids[i], m') {
        NodesBelowMore(t.kids[i], m, m');
      }
    }
  }

  /** Deleting never takes room away. */
  lemma {:induction false} DeleteRoomy(t: Tree, h: nat, lo: int, hi: int, m: nat, k: int, m': nat)
    requires WF(t, h, lo, hi, m)
    ensures NodesBelow(t, m') ==> NodesBelow(Delete(t, h, lo, hi, m, k), m')
    decreases h
  {
    if t.Node? {
      var i := UpperBound(t.keys, k);
      DeleteRoomy(t.kids[i], h - 1, Lo(t.keys, i, lo), Hi(t.keys, i, hi), m, k, m');
    }
  }

  /** ... which a leaf of ten keys, fine at order 32, does not have at order 8. */
  lemma StaleOrderExample()
    ensures var t := Leaf(1, seq(10, i => i), seq(10, i => i)); WF(t, 1, 0, 100, 32) && !WF(t, 1, 0, 100, 8)
  {
    var t := Leaf(1, seq(10, i => i), seq(10, i => i));
    assert |t.keys| == 10;
  }
}
