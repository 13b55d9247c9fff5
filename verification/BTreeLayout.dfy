/** Where a B+ tree lives: node addresses, the leaf chain, and the memory image
    of src/legacy/bptree.c's node structure. */
module BTreeLayout {
  import opened BTreeSpec

  const MAX_ORDER: nat := 64

  /** BPlusNode: fixed arrays of 64 keys, 64 values and 65 child addresses, of
      which the first `cnt` (children: cnt + 1) are in use.  Address 0 is NULL. */
  datatype BNode = BNode(isLeaf: bool, cnt: nat, keys: seq<int>, vals: seq<int>, kids: seq<nat>, next: nat)

  type Heap = map<nat, BNode>

  predicate Sized(n: BNode) {
    n.cnt < MAX_ORDER && |n.keys| == |n.vals| == MAX_ORDER && |n.kids| == MAX_ORDER + 1
  }

  /** calloc: a zeroed node. */
  function NewNode(isLeaf: bool): (n: BNode)
    ensures Sized(n)
  {
    BNode(isLeaf, 0, seq(MAX_ORDER, _ => 0), seq(MAX_ORDER, _ => 0), seq(MAX_ORDER + 1, _ => 0), 0)
  }

  // ------------------------------------------------------------ block moves

  /** memmove within an array; both ranges must lie inside it. */
  function Move<T>(a: seq<T>, dst: nat, src: nat, n: nat): (r: seq<T>)
    requires dst + n <= |a| && src + n <= |a|
    ensures |r| == |a|
    ensures forall j :: 0 <= j < |a| ==> r[j] == if dst <= j < dst + n then a[src + j - dst] else a[j]
  {
    a[..dst] + a[src..src + n] + a[dst + n..]
  }

  /** memcpy from the start of an array. */
  function Copy<T>(a: seq<T>, b: seq<T>, src: nat, n: nat): (r: seq<T>)
    requires n <= |a| && src + n <= |b|
    ensures |r| == |a| && r[..n] == b[src..src + n]
  {
    b[src..src + n] + a[n..]
  }

  /** Shift one place right from i, then store: the used part gains x at i. */
  lemma ShiftIn<T>(a: seq<T>, cnt: nat, i: nat, x: T)
    requires i <= cnt < |a|
    ensures Move(a, i + 1, i, cnt - i)[i := x][..cnt + 1] == a[..cnt][..i] + [x] + a[..cnt][i..]
  {
  }

  /** The child shift of an internal node with `cnt` keys moves cnt - i + 1
      addresses, one more than are in use; the used part still gains x after i. */
  lemma ShiftInChild<T>(a: seq<T>, cnt: nat, i: nat, x: T)
    requires i <= cnt && cnt + 3 <= |a|
    ensures Move(a, i + 2, i + 1, cnt - i + 1)[i + 1 := x][..cnt + 2] == a[..cnt + 1][..i + 1] + [x] + a[..cnt + 1][i + 1..]
  {
  }

  /** That shift stays inside the node's 65 child slots exactly when the node has
      at most 62 keys: always for orders up to 32, never for a full node of order 64. */
  lemma ChildShiftInBounds(cnt: nat, i: nat)
    requires i <= cnt < MAX_ORDER
    ensures (i + 2) + (cnt - i + 1) <= MAX_ORDER + 1 && (i + 1) + (cnt - i + 1) <= MAX_ORDER + 1 <==> cnt <= MAX_ORDER - 2
  {
  }

  // --------------------------------------------------------------- addresses

  /** All node addresses of a tree. */
  ghost function Ptrs(t: Tree): set<nat>
    decreases t, 0
  {
    {t.ptr} + if t.Leaf? then {} else PtrsAll(t.kids)
  }

  ghost function PtrsAll(ts: seq<Tree>): set<nat>
    decreases ts, 1
  {
    if ts == [] then {} else Ptrs(ts[0]) + PtrsAll(ts[1..])
  }

  /** No address occurs twice: the nodes really form a tree. */
  ghost predicate Distinct(t: Tree)
    decreases t, 0
  {
    t.Node? ==> t.ptr !in PtrsAll(t.kids) && DistinctAll(t.kids)
  }

  ghost predicate DistinctAll(ts: seq<Tree>)
    decreases ts, 1
  {
    ts != [] ==> Distinct(ts[0]) && Ptrs(ts[0]) !! PtrsAll(ts[1..]) && DistinctAll(ts[1..])
  }

  lemma {:induction false} AddrsAppend(a: seq<Tree>, b: seq<Tree>)
    ensures PtrsAll(a + b) == PtrsAll(a) + PtrsAll(b)
    ensures DistinctAll(a + b) <==> DistinctAll(a) && DistinctAll(b) && PtrsAll(a) !! PtrsAll(b)
  {
    if a == [] {
      assert a + b == b;
    } else {
      AddrsAppend(a[1..], b);
      TailAppend(a, b);
    }
  }

  lemma AddrsPair(l: Tree, r: Tree)
    ensures PtrsAll([l, r]) == Ptrs(l) + Ptrs(r)
    ensures DistinctAll([l, r]) <==> Distinct(l) && Distinct(r) && Ptrs(l) !! Ptrs(r)
  {
    assert [l, r][1..] == [r];
    assert PtrsAll([r]) == Ptrs(r) + PtrsAll([]);
    assert DistinctAll([r]) <==> Distinct(r) && Ptrs(r) !! PtrsAll([]) && DistinctAll([]);
  }

  /** Addresses around child i. */
  lemma AddrsAt(ts: seq<Tree>, i: nat)
    requires i < |ts|
    ensures PtrsAll(ts) == PtrsAll(ts[..i]) + Ptrs(ts[i]) + PtrsAll(ts[i + 1..])
    ensures DistinctAll(ts) <==>
            && DistinctAll(ts[..i]) && Distinct(ts[i]) && DistinctAll(ts[i + 1..])
            && PtrsAll(ts[..i]) !! Ptrs(ts[i]) !! PtrsAll(ts[i + 1..])
  {
    SplitAt(ts, i);
    AddrsAppend(ts[..i], ts[i..]);
  }

  /** Addresses after child i is replaced by two trees. */
  lemma AddrsSplice(ts: seq<Tree>, i: nat, l: Tree, r: Tree)
    requires i < |ts|
    ensures var cs := ts[..i] + [l, r] + ts[i + 1..];
            && PtrsAll(cs) == PtrsAll(ts[..i]) + (Ptrs(l) + Ptrs(r)) + PtrsAll(ts[i + 1..])
            && (DistinctAll(cs) <==>
                && DistinctAll(ts[..i]) && Distinct(l) && Distinct(r) && DistinctAll(ts[i + 1..])
                && Ptrs(l) !! Ptrs(r) && PtrsAll(ts[..i]) !! (Ptrs(l) + Ptrs(r)) !! PtrsAll(ts[i + 1..]))
  {
    AddrsAppend(ts[..i] + [l, r], ts[i + 1..]);
    AddrsAppend(ts[..i], [l, r]);
    AddrsPair(l, r);
  }

  /** The memory holds the tree. */
  ghost predicate Matches(heap: Heap, t: Tree) {
    && t.ptr in heap
    && t.ptr != 0
    && var n := heap[t.ptr];
    && Sized(n)
    && n.cnt == |t.keys|
    && n.keys[..n.cnt] == t.keys
    && n.isLeaf == t.Leaf?
    && match t
       case Leaf(_, _, vals) => n.vals[..n.cnt] == vals
       case Node(_, _, kids) =>
         && |kids| == n.cnt + 1
         && (forall i :: 0 <= i < |kids| ==> n.kids[i] == kids[i].ptr && Matches(heap, kids[i]))
  }

  lemma KidPtrs(ts: seq<Tree>, i: nat)
    requires i < |ts|
    ensures Ptrs(ts[i]) <= PtrsAll(ts)
  {
    AddrsAt(ts, i);
  }

  lemma {:induction false} PtrsAllBound(ts: seq<Tree>, s: set<nat>)
    requires forall i :: 0 <= i < |ts| ==> Ptrs(ts[i]) <= s
    ensures PtrsAll(ts) <= s
  {
    if ts != [] {
      PtrsAllBound(ts[1..], s);
    }
  }

  lemma {:induction false} MatchesPtrs(heap: Heap, t: Tree)
    requires Matches(heap, t)
    ensures Ptrs(t) <= heap.Keys - {0}
  {
    if t.Node? {
      forall i | 0 <= i < |t.kids| ensures Ptrs(t.kids[i]) <= heap.Keys - {0} {
        MatchesPtrs(heap, t.kids[i]);
      }
      PtrsAllBound(t.kids, heap.Keys - {0});
    }
  }

  /** Two memories agree on a set of addresses. */
  ghost predicate Agree(heap: Heap, heap': Heap, s: set<nat>) {
    forall p :: p in s && p in heap ==> p in heap' && heap'[p] == heap[p]
  }

  /** Memory changes outside a tree's addresses do not affect it. */
  lemma {:induction false} MatchesFrame(heap: Heap, heap': Heap, t: Tree)
    requires Matches(heap, t) && Agree(heap, heap', Ptrs(t))
    ensures Matches(heap', t)
  {
    if t.Node? {
      forall i | 0 <= i < |t.kids| ensures Matches(heap', t.kids[i]) {
        KidPtrs(t.kids, i);
        MatchesFrame(heap, heap', t.kids[i]);
      }
    }
  }

  // --------------------------------------------------------------- leaf chain

  ghost function Leaves(t: Tree): (r: seq<nat>)
    decreases t, 0
  {
    if t.Leaf? then [t.ptr] else LeavesAll(t.kids)
  }

  ghost function LeavesAll(ts: seq<Tree>): seq<nat>
    decreases ts, 1
  {
    if ts == [] then [] else Leaves(ts[0]) + LeavesAll(ts[1..])
  }

  lemma {:induction false} LeavesAllAppend(a: seq<Tree>, b: seq<Tree>)
    ensures LeavesAll(a + b) == LeavesAll(a) + LeavesAll(b)
  {
    if a == [] {
      assert a + b == b;
    } else {
      LeavesAllAppend(a[1..], b);
      TailAppend(a, b);
    }
  }

  lemma LeavesAllAt(ts: seq<Tree>, i: nat)
    requires i < |ts|
    ensures LeavesAll(ts) == LeavesAll(ts[..i]) + Leaves(ts[i]) + LeavesAll(ts[i + 1..])
  {
    SplitAt(ts, i);
    LeavesAllAppend(ts[..i], ts[i..]);
  }

  lemma LeavesSplice(kids: seq<Tree>, i: nat, l: Tree, r: Tree)
    requires i < |kids|
    ensures LeavesAll(kids[..i] + [l, r] + kids[i + 1..]) ==
            LeavesAll(kids[..i]) + (Leaves(l) + Leaves(r)) + LeavesAll(kids[i + 1..])
  {
    LeavesAllAppend(kids[..i] + [l, r], kids[i + 1..]);
    LeavesAllAppend(kids[..i], [l, r]);
    assert [l, r][1..] == [r];
    assert LeavesAll([r]) == Leaves(r) + LeavesAll([]);
  }

  lemma {:induction false} LeavesInPtrs(t: Tree)
    ensures forall p :: p in Leaves(t) ==> p in Ptrs(t)
    decreases t, 0
  {
    if t.Node? {
      LeavesAllInPtrs(t.kids);
    }
  }

  lemma {:induction false} LeavesAllInPtrs(ts: seq<Tree>)
    ensures forall p :: p in LeavesAll(ts) ==> p in PtrsAll(ts)
    decreases ts, 1
  {
    if ts != [] {
      LeavesInPtrs(ts[0]);
      LeavesAllInPtrs(ts[1..]);
    }
  }

  lemma {:induction false} LeavesNonEmpty(t: Tree, h: nat, lo: int, hi: int, m: nat)
    requires WF(t, h, lo, hi, m)
    ensures Leaves(t) != []
    decreases h
  {
    if t.Node? {
      LeavesNonEmpty(t.kids[0], h - 1, Lo(t.keys, 0, lo), Hi(t.keys, 0, hi), m);
    }
  }

  /** Where a chain before `c` has to lead. */
  function Head(c: seq<nat>, tail: nat): nat {
    if c == [] then tail else c[0]
  }

  /** The leaves are chained in order through `next`, ending at `tail`. */
  ghost predicate Linked(heap: Heap, ps: seq<nat>, tail: nat) {
    ps == [] || (ps[0] in heap && heap[ps[0]].next == Head(ps[1..], tail) && Linked(heap, ps[1..], tail))
  }

  lemma {:induction false} LinkedSplit(heap: Heap, a: seq<nat>, b: seq<nat>, tail: nat)
    ensures Linked(heap, a + b, tail) <==> Linked(heap, a, Head(b, tail)) && Linked(heap, b, tail)
  {
    if a == [] {
      assert a + b == b;
    } else {
      LinkedSplit(heap, a[1..], b, tail);
      TailAppend(a, b);
      assert Head(a[1..] + b, tail) == Head(a[1..], Head(b, tail));
    }
  }

  lemma LinkedSplit3(heap: Heap, a: seq<nat>, x: seq<nat>, c: seq<nat>, tail: nat)
    requires x != []
    ensures Linked(heap, a + x + c, tail) <==>
            Linked(heap, a, x[0]) && Linked(heap, x, Head(c, tail)) && Linked(heap, c, tail)
  {
    assert a + x + c == a + (x + c);
    LinkedSplit(heap, a, x + c, tail);
    LinkedSplit(heap, x, c, tail);
    assert (x + c)[0] == x[0];
  }

  lemma {:induction false} LinkedFrame(heap: Heap, heap': Heap, ps: seq<nat>, tail: nat)
    requires Linked(heap, ps, tail)
    requires forall p :: p in ps ==> p in heap && p in heap' && heap'[p].next == heap[p].next
    ensures Linked(heap', ps, tail)
  {
    if ps != [] {
      LinkedFrame(heap, heap', ps[1..], tail);
    }
  }

  // -------------------------------------------------- addresses under insertion

  /** Addresses from `addrs`, or among the n that allocation hands out from nx on. */
  ghost predicate From(s: set<nat>, addrs: set<nat>, nx: nat, n: nat) {
    forall p :: p in s ==> p in addrs || nx <= p < nx + n
  }

  /** Addresses of an insertion result: old ones and new ones, each used once, the
      tree keeping its root address and its first leaf. */
  ghost predicate Placed(addrs: set<nat>, root: nat, first: nat, r: Ins, nx: nat, n: nat) {
    match r
    case Dup => true
    case One(u) =>
      && u.ptr == root && Distinct(u) && From(Ptrs(u), addrs, nx, n)
      && Leaves(u) != [] && Leaves(u)[0] == first
    case Two(a, _, b) =>
      && a.ptr == root && b.ptr == nx + n && Distinct(a) && Distinct(b)
      && Ptrs(a) !! Ptrs(b) && From(Ptrs(a), addrs, nx, n + 1) && From(Ptrs(b), addrs, nx, n + 1)
      && Leaves(a) != [] && Leaves(b) != [] && Leaves(a)[0] == first
  }

  ghost predicate AllBelow(s: set<nat>, nx: nat) {
    forall p :: p in s ==> p < nx
  }

  ghost predicate KidsLeafy(kids: seq<Tree>) {
    forall j :: 0 <= j < |kids| ==> Leaves(kids[j]) != []
  }

  lemma FirstLeaf(kids: seq<Tree>)
    requires kids != [] && Leaves(kids[0]) != []
    ensures LeavesAll(kids) != [] && LeavesAll(kids)[0] == Leaves(kids[0])[0]
  {
  }

  lemma NodePlacedOne(p: nat, keys: seq<int>, kids: seq<Tree>, i: nat, u: Tree, nx: nat, n: nat)
    requires i < |kids| && p < nx && p !in PtrsAll(kids) && DistinctAll(kids) && AllBelow(PtrsAll(kids), nx) && KidsLeafy(kids)
    requires Placed(Ptrs(kids[i]), kids[i].ptr, Leaves(kids[i])[0], One(u), nx, n)
    ensures Placed({p} + PtrsAll(kids), p, LeavesAll(kids)[0], One(Node(p, keys, kids[i := u])), nx, n + 1)
  {
    var cs := kids[i := u];
    assert cs[..i] == kids[..i] && cs[i + 1..] == kids[i + 1..];
    AddrsAt(kids, i);
    AddrsAt(cs, i);
    FirstLeaf(kids);
    FirstLeaf(cs);
  }

  lemma SplicePlaced(p: nat, kids: seq<Tree>, i: nat, l: Tree, s: int, r: Tree, nx: nat, n: nat)
    requires i < |kids| && p < nx && p !in PtrsAll(kids) && DistinctAll(kids) && AllBelow(PtrsAll(kids), nx) && KidsLeafy(kids)
    requires Placed(Ptrs(kids[i]), kids[i].ptr, Leaves(kids[i])[0], Two(l, s, r), nx, n)
    ensures var cs := kids[..i] + [l, r] + kids[i + 1..];
            && DistinctAll(cs) && p !in PtrsAll(cs) && From(PtrsAll(cs), PtrsAll(kids), nx, n + 1)
            && KidsLeafy(cs) && Leaves(cs[0])[0] == Leaves(kids[0])[0]
  {
    AddrsAt(kids, i);
    AddrsSplice(kids, i, l, r);
  }

  lemma PlacedWhole(p: nat, ks: seq<int>, cs: seq<Tree>, addrs: set<nat>, nx: nat, n: nat)
    requires cs != [] && KidsLeafy(cs) && DistinctAll(cs) && p !in PtrsAll(cs) && p in addrs && From(PtrsAll(cs), addrs, nx, n)
    ensures Placed(addrs, p, Leaves(cs[0])[0], One(Node(p, ks, cs)), nx, n)
  {
    FirstLeaf(cs);
  }

  lemma PlacedSplit(p: nat, ks: seq<int>, cs: seq<Tree>, c: nat, addrs: set<nat>, nx: nat, n: nat)
    requires |cs| == |ks| + 1 && c < |ks| && KidsLeafy(cs) && DistinctAll(cs)
    requires p !in PtrsAll(cs) && p in addrs && p < nx && From(PtrsAll(cs), addrs, nx, n) && AllBelow(addrs, nx)
    ensures Placed(addrs, p, Leaves(cs[0])[0], Two(Node(p, ks[..c], cs[..c + 1]), ks[c], Node(nx + n, ks[c + 1..], cs[c + 1..])), nx, n)
  {
    assert cs == cs[..c + 1] + cs[c + 1..];
    AddrsAppend(cs[..c + 1], cs[c + 1..]);
    FirstLeaf(cs[..c + 1]);
    FirstLeaf(cs[c + 1..]);
  }

  lemma SplitNodePlaced(p: nat, ks: seq<int>, cs: seq<Tree>, m: nat, addrs: set<nat>, nx: nat, n: nat)
    requires m >= 4 && |cs| == |ks| + 1 <= m + 1 && KidsLeafy(cs) && DistinctAll(cs)
    requires p !in PtrsAll(cs) && p in addrs && p < nx && From(PtrsAll(cs), addrs, nx, n) && AllBelow(addrs, nx)
    ensures Placed(addrs, p, Leaves(cs[0])[0], SplitNode(p, ks, cs, m, nx + n), nx, n)
  {
    if |ks| < m {
      PlacedWhole(p, ks, cs, addrs, nx, n);
    } else {
      PlacedSplit(p, ks, cs, m / 2, addrs, nx, n);
    }
  }

  lemma NodePlacedTwo(p: nat, keys: seq<int>, kids: seq<Tree>, m: nat, i: nat, l: Tree, s: int, r: Tree, nx: nat, n: nat)
    requires m >= 4 && i < |kids| == |keys| + 1 <= m
    requires p < nx && p !in PtrsAll(kids) && DistinctAll(kids) && AllBelow(PtrsAll(kids), nx) && KidsLeafy(kids)
    requires Placed(Ptrs(kids[i]), kids[i].ptr, Leaves(kids[i])[0], Two(l, s, r), nx, n)
    ensures Placed({p} + PtrsAll(kids), p, Leaves(kids[0])[0],
                   SplitNode(p, keys[..i] + [s] + keys[i..], kids[..i] + [l, r] + kids[i + 1..], m, nx + n + 1), nx, n + 1) == true
  {
    var ks, cs := keys[..i] + [s] + keys[i..], kids[..i] + [l, r] + kids[i + 1..];
    SplicePlaced(p, kids, i, l, s, r, nx, n);
    SplitNodePlaced(p, ks, cs, m, {p} + PtrsAll(kids), nx, n + 1);
  }

  lemma LeafPlaced(p: nat, keys: seq<int>, vals: seq<int>, m: nat, k: int, v: int, nx: nat)
    requires m >= 4 && |keys| == |vals| < m && Sorted(keys) && p < nx
    ensures Placed({p}, p, p, LeafIns(p, keys, vals, m, k, v, nx), nx, 0)
  {
  }

  lemma KidsLeafyWF(t: Tree, h: nat, lo: int, hi: int, m: nat)
    requires t.Node? && WF(t, h, lo, hi, m)
    ensures KidsLeafy(t.kids)
  {
    forall j | 0 <= j < |t.kids| ensures Leaves(t.kids[j]) != [] {
      LeavesNonEmpty(t.kids[j], h - 1, Lo(t.keys, j, lo), Hi(t.keys, j, hi), m);
    }
  }

  /** The addresses of every insertion result, for every tree. */
  lemma {:induction false} InsertPlaced(t: Tree, h: nat, lo: int, hi: int, m: nat, k: int, v: int, nx: nat)
    requires m >= 4 && WF(t, h, lo, hi, m) && Distinct(t) && AllBelow(Ptrs(t), nx)
    ensures Leaves(t) != [] && Placed(Ptrs(t), t.ptr, Leaves(t)[0], Insert(t, h, lo, hi, m, k, v, nx), nx, h - 1) == true
    decreases h
  {
    LeavesNonEmpty(t, h, lo, hi, m);
    if t.Leaf? {
      LeafPlaced(t.ptr, t.keys, t.vals, m, k, v, nx);
      assert Ptrs(t) == {t.ptr} && Leaves(t) == [t.ptr];
    } else {
      var i := UpperBound(t.keys, k);
      AddrsAt(t.kids, i);
      InsertPlaced(t.kids[i], h - 1, Lo(t.keys, i, lo), Hi(t.keys, i, hi), m, k, v, nx);
      InsertPlacedNode(t, h, lo, hi, m, k, v, nx);
    }
  }

  lemma InsertPlacedNode(t: Tree, h: nat, lo: int, hi: int, m: nat, k: int, v: int, nx: nat)
    requires m >= 4 && t.Node? && WF(t, h, lo, hi, m) && Distinct(t) && AllBelow(Ptrs(t), nx)
    requires var i := UpperBound(t.keys, k);
             var c := t.kids[i];
             Leaves(c) != [] &&
             Placed(Ptrs(c), c.ptr, Leaves(c)[0], Insert(c, h - 1, Lo(t.keys, i, lo), Hi(t.keys, i, hi), m, k, v, nx), nx, h - 2)
    ensures Leaves(t) != [] && Placed(Ptrs(t), t.ptr, Leaves(t)[0], Insert(t, h, lo, hi, m, k, v, nx), nx, h - 1) == true
  {
    var i := UpperBound(t.keys, k);
    var sub := Insert(t.kids[i], h - 1, Lo(t.keys, i, lo), Hi(t.keys, i, hi), m, k, v, nx);
    KidsLeafyWF(t, h, lo, hi, m);
    NodePlaced(t.ptr, t.keys, t.kids, m, i, sub, nx, h - 2);
    assert Insert(t, h, lo, hi, m, k, v, nx) == NodeIns(t.ptr, t.keys, t.kids, m, i, sub, nx + h - 1);
    assert Ptrs(t) == {t.ptr} + PtrsAll(t.kids) && Leaves(t) == LeavesAll(t.kids);
  }

  lemma NodePlaced(p: nat, keys: seq<int>, kids: seq<Tree>, m: nat, i: nat, sub: Ins, nx: nat, n: nat)
    requires m >= 4 && i < |kids| == |keys| + 1 <= m
    requires p < nx && p !in PtrsAll(kids) && DistinctAll(kids) && AllBelow(PtrsAll(kids), nx) && KidsLeafy(kids)
    requires Placed(Ptrs(kids[i]), kids[i].ptr, Leaves(kids[i])[0], sub, nx, n)
    ensures LeavesAll(kids) != []
    ensures Placed({p} + PtrsAll(kids), p, LeavesAll(kids)[0], NodeIns(p, keys, kids, m, i, sub, nx + n + 1), nx, n + 1)
  {
    FirstLeaf(kids);
    match sub
    case Dup =>
    case One(u) => NodePlacedOne(p, keys, kids, i, u, nx, n);
    case Two(l, s, r) => NodePlacedTwo(p, keys, kids, m, i, l, s, r, nx, n);
  }
}
