/** The B+ tree of src/legacy/bptree.c as it runs: nodes in memory, shifted, split
    and relinked in place.  Every method is proved against the tree functions of
    BTreeSpec, so each keeps sorted nodes, ordered separators, equal leaf depth and
    a leaf chain that is the in-order sequence of leaves. */
module BTreeHeap {
  import opened BTreeSpec
  import opened BTreeLayout

  /** Orders normalize_order can produce. */
  predicate ValidOrder(m: nat) {
    m == 8 || m == 16 || m == 32 || m == 64
  }

  lemma {:induction false} LowerBoundUnique(keys: seq<int>, k: int, r: nat)
    requires Sorted(keys) && r <= |keys|
    requires forall j :: 0 <= j < r ==> keys[j] < k
    requires forall j :: r <= j < |keys| ==> k <= keys[j]
    ensures r == LowerBound(keys, k)
  {
    var q := LowerBound(keys, k);
    assert (r < |keys| ==> k <= keys[r]) && (q < |keys| ==> k <= keys[q]);
  }

  lemma {:induction false} UpperBoundUnique(keys: seq<int>, k: int, r: nat)
    requires Sorted(keys) && r <= |keys|
    requires forall j :: 0 <= j < r ==> keys[j] <= k
    requires forall j :: r <= j < |keys| ==> k < keys[j]
    ensures r == UpperBound(keys, k)
  {
    var q := UpperBound(keys, k);
    assert (r < |keys| ==> k < keys[r]) && (q < |keys| ==> k < keys[q]);
  }

  /** Binary search for the first key not below `key` (lower_bound_long). */
  method FindLower(keys: seq<int>, count: nat, key: int) returns (lo: nat)
    requires count <= |keys| && Sorted(keys[..count])
    ensures lo == LowerBound(keys[..count], key)
  {
    lo := 0;
    var hi := count;
    while lo < hi
      invariant lo <= hi <= count
      invariant forall j :: 0 <= j < lo ==> keys[..count][j] < key
      invariant forall j :: hi <= j < count ==> key <= keys[..count][j]
    {
      var mid := lo + (hi - lo) / 2;
      assert keys[mid] == keys[..count][mid];
      if keys[mid] < key { lo := mid + 1; } else { hi := mid; }
    }
    LowerBoundUnique(keys[..count], key, lo);
  }

  /** Binary search for the first key above `key` (upper_bound_long). */
  method FindUpper(keys: seq<int>, count: nat, key: int) returns (lo: nat)
    requires count <= |keys| && Sorted(keys[..count])
    ensures lo == UpperBound(keys[..count], key)
  {
    lo := 0;
    var hi := count;
    while lo < hi
      invariant lo <= hi <= count
      invariant forall j :: 0 <= j < lo ==> keys[..count][j] <= key
      invariant forall j :: hi <= j < count ==> key < keys[..count][j]
    {
      var mid := lo + (hi - lo) / 2;
      assert keys[mid] == keys[..count][mid];
      if keys[mid] <= key { lo := mid + 1; } else { hi := mid; }
    }
    UpperBoundUnique(keys[..count], key, lo);
  }

  // ------------------------------------------------------------ memory predicates

  /** An internal node's own memory, its children aside. */
  ghost predicate NodeAt(heap: Heap, p: nat, keys: seq<int>, kids: seq<Tree>) {
    && p in heap && p != 0
    && var n := heap[p];
    && Sized(n) && !n.isLeaf && n.cnt == |keys| && n.keys[..n.cnt] == keys && |kids| == n.cnt + 1
    && forall i :: 0 <= i < |kids| ==> n.kids[i] == kids[i].ptr
  }

  ghost predicate MatchesAll(heap: Heap, ts: seq<Tree>) {
    forall i :: 0 <= i < |ts| ==> Matches(heap, ts[i])
  }

  lemma NodeMatches(heap: Heap, p: nat, keys: seq<int>, kids: seq<Tree>)
    ensures Matches(heap, Node(p, keys, kids)) <==> NodeAt(heap, p, keys, kids) && MatchesAll(heap, kids)
  {
  }

  lemma MatchesAllFrame(heap: Heap, heap': Heap, ts: seq<Tree>)
    requires MatchesAll(heap, ts) && Agree(heap, heap', PtrsAll(ts))
    ensures MatchesAll(heap', ts)
  {
    forall i | 0 <= i < |ts| ensures Matches(heap', ts[i]) {
      KidPtrs(ts, i);
      MatchesFrame(heap, heap', ts[i]);
    }
  }

  /** All addresses in use are below the next one to be handed out. */
  ghost predicate Fresh(heap: Heap, alloc: nat) {
    alloc > 0 && forall p :: p in heap ==> p < alloc
  }

  /** Outcome of a recursive insert in memory: the result code, what the memory now
      holds, and that nothing outside the tree's own addresses changed. */
  ghost predicate Outcome(heap0: Heap, alloc0: nat, heap: Heap, alloc: nat, own: set<nat>, r: Ins, h: nat, tail: nat, res: int, sep: int, child: nat) {
    && Fresh(heap, alloc) && Agree(heap0, heap, heap0.Keys - own)
    && match r
       case Dup => res == 0 && heap == heap0 && alloc == alloc0
       case One(u) => res == 1 && Matches(heap, u) && Linked(heap, Leaves(u), tail)
       case Two(a, s, b) =>
         && res == 2 && sep == s && child == b.ptr && alloc == alloc0 + h
         && Matches(heap, a) && Matches(heap, b) && Linked(heap, Leaves(a) + Leaves(b), tail)
  }

  // --------------------------------------------------------- steps on one node

  ghost predicate LeafImg(n: BNode, keys: seq<int>, vals: seq<int>) {
    Sized(n) && n.isLeaf && n.cnt == |keys| == |vals| && n.keys[..n.cnt] == keys && n.vals[..n.cnt] == vals
  }

  /** Shift a leaf's arrays right from i and store the new pair. */
  function AddPair(n: BNode, i: nat, key: int, row: int): BNode
    requires Sized(n) && i <= n.cnt < MAX_ORDER - 1
  {
    n.(keys := Move(n.keys, i + 1, i, n.cnt - i)[i := key],
       vals := Move(n.vals, i + 1, i, n.cnt - i)[i := row],
       cnt := n.cnt + 1)
  }

  /** Shift a leaf's arrays left over position i. */
  function RemovePair(n: BNode, i: nat): BNode
    requires Sized(n) && i < n.cnt
  {
    n.(keys := Move(n.keys, i, i + 1, n.cnt - i - 1),
       vals := Move(n.vals, i, i + 1, n.cnt - i - 1),
       cnt := n.cnt - 1)
  }

  /** Copy the pairs from c on into a new leaf that takes over the chain. */
  function TakeTail(r: BNode, n: BNode, c: nat): BNode
    requires Sized(r) && Sized(n) && c <= n.cnt
  {
    r.(keys := Copy(r.keys, n.keys, c, n.cnt - c), vals := Copy(r.vals, n.vals, c, n.cnt - c), cnt := n.cnt - c, next := n.next)
  }

  lemma AddPairImg(n: BNode, keys: seq<int>, vals: seq<int>, i: nat, key: int, row: int)
    requires LeafImg(n, keys, vals) && i <= n.cnt < MAX_ORDER - 1
    ensures LeafImg(AddPair(n, i, key, row), keys[..i] + [key] + keys[i..], vals[..i] + [row] + vals[i..])
  {
    ShiftIn(n.keys, n.cnt, i, key);
    ShiftIn(n.vals, n.cnt, i, row);
  }

  lemma RemovePairImg(n: BNode, keys: seq<int>, vals: seq<int>, i: nat)
    requires LeafImg(n, keys, vals) && i < n.cnt
    ensures LeafImg(RemovePair(n, i), keys[..i] + keys[i + 1..], vals[..i] + vals[i + 1..])
  {
    assert RemovePair(n, i).keys[..n.cnt - 1] == n.keys[..n.cnt][..i] + n.keys[..n.cnt][i + 1..];
    assert RemovePair(n, i).vals[..n.cnt - 1] == n.vals[..n.cnt][..i] + n.vals[..n.cnt][i + 1..];
  }

  lemma CutImg(n: BNode, r: BNode, ks: seq<int>, vs: seq<int>, c: nat, right: nat)
    requires LeafImg(n, ks, vs) && Sized(r) && r.isLeaf && c <= n.cnt
    ensures LeafImg(n.(cnt := c, next := right), ks[..c], vs[..c])
    ensures LeafImg(TakeTail(r, n, c), ks[c..], vs[c..])
  {
    assert n.keys[c..n.cnt] == n.keys[..n.cnt][c..] && n.vals[c..n.cnt] == n.vals[..n.cnt][c..];
    assert n.keys[..c] == n.keys[..n.cnt][..c] && n.vals[..c] == n.vals[..n.cnt][..c];
  }

  /** A leaf in memory, ready for an insert. */
  ghost predicate LeafReady(heap: Heap, alloc: nat, p: nat, keys: seq<int>, vals: seq<int>, m: nat, tail: nat) {
    && 8 <= m <= 32 && Fresh(heap, alloc)
    && p in heap && p != 0 && LeafImg(heap[p], keys, vals) && heap[p].next == tail
    && |keys| < m && Sorted(keys)
  }

  predicate Absent(keys: seq<int>, k: int)
    requires Sorted(keys)
  {
    var i := LowerBound(keys, k); i == |keys| || keys[i] != k
  }

  lemma DupOutcome(heap: Heap, alloc: nat, p: nat, keys: seq<int>, vals: seq<int>, m: nat, key: int, row: int, tail: nat, sep: int, child: nat)
    requires LeafReady(heap, alloc, p, keys, vals, m, tail) && !Absent(keys, key)
    ensures Outcome(heap, alloc, heap, alloc, {p}, LeafIns(p, keys, vals, m, key, row, alloc), 1, tail, 0, sep, child)
  {
  }

  lemma AddPairOutcome(heap: Heap, alloc: nat, p: nat, keys: seq<int>, vals: seq<int>, m: nat, key: int, row: int, tail: nat, sep: int, child: nat)
    requires LeafReady(heap, alloc, p, keys, vals, m, tail) && |keys| < m - 1 && Absent(keys, key)
    ensures var heap' := heap[p := AddPair(heap[p], LowerBound(keys, key), key, row)];
            Outcome(heap, alloc, heap', alloc, {p}, LeafIns(p, keys, vals, m, key, row, alloc), 1, tail, 1, sep, child)
  {
    AddPairImg(heap[p], keys, vals, LowerBound(keys, key), key, row);
  }

  lemma TwoLeavesLinked(heap: Heap, p: nat, q: nat, tail: nat)
    requires p in heap && q in heap && heap[p].next == q && heap[q].next == tail
    ensures Linked(heap, [p] + [q], tail)
  {
    assert ([p] + [q])[1..] == [q];
    assert Linked(heap, [q], tail);
  }

  /** Memory after a full leaf takes a pair at i and splits after c. */
  function SplitLeafHeap(heap: Heap, p: nat, i: nat, key: int, row: int, c: nat, right: nat): Heap
    requires p in heap && Sized(heap[p]) && i <= heap[p].cnt < MAX_ORDER - 1 && c <= heap[p].cnt
  {
    var n := AddPair(heap[p], i, key, row);
    heap[right := TakeTail(NewNode(true), n, c)][p := n.(cnt := c, next := right)]
  }

  lemma SplitLeafOutcome(heap: Heap, alloc: nat, p: nat, keys: seq<int>, vals: seq<int>, m: nat, key: int, row: int, tail: nat)
    requires LeafReady(heap, alloc, p, keys, vals, m, tail) && |keys| == m - 1 && Absent(keys, key)
    ensures var heap' := SplitLeafHeap(heap, p, LowerBound(keys, key), key, row, (m - 1) / 2, alloc);
            Outcome(heap, alloc, heap', alloc + 1, {p}, LeafIns(p, keys, vals, m, key, row, alloc), 1, tail, 2, heap'[alloc].keys[0], alloc)
  {
    var i, c := LowerBound(keys, key), (m - 1) / 2;
    var ks, vs := keys[..i] + [key] + keys[i..], vals[..i] + [row] + vals[i..];
    SplitLeafImg(heap, alloc, p, keys, vals, i, key, row, c);
    TwoLeavesLinked(SplitLeafHeap(heap, p, i, key, row, c, alloc), p, alloc, tail);
    assert ks[c..][0] == ks[c];
  }

  lemma SplitLeafImg(heap: Heap, alloc: nat, p: nat, keys: seq<int>, vals: seq<int>, i: nat, key: int, row: int, c: nat)
    requires p in heap && p != 0 && alloc !in heap && LeafImg(heap[p], keys, vals) && i <= |keys| < MAX_ORDER - 1 && c <= |keys|
    ensures var heap' := SplitLeafHeap(heap, p, i, key, row, c, alloc);
            var ks, vs := keys[..i] + [key] + keys[i..], vals[..i] + [row] + vals[i..];
            && LeafImg(heap'[p], ks[..c], vs[..c]) && LeafImg(heap'[alloc], ks[c..], vs[c..])
            && heap'[alloc].keys[0] == ks[c..][0]
            && heap'[p].next == alloc && heap'[alloc].next == heap[p].next
  {
    var n := AddPair(heap[p], i, key, row);
    var ks, vs := keys[..i] + [key] + keys[i..], vals[..i] + [row] + vals[i..];
    AddPairImg(heap[p], keys, vals, i, key, row);
    CutImg(n, NewNode(true), ks, vs, c, alloc);
    var r := TakeTail(NewNode(true), n, c);
    assert r.keys[0] == r.keys[..r.cnt][0];
  }

  // ---------------------------------------------------- steps on internal nodes

  function Addrs(kids: seq<Tree>): (r: seq<nat>)
    ensures |r| == |kids| && forall i :: 0 <= i < |r| ==> r[i] == kids[i].ptr
  {
    seq(|kids|, i requires 0 <= i < |kids| => kids[i].ptr)
  }

  ghost predicate NodeImg(n: BNode, keys: seq<int>, addrs: seq<nat>) {
    && Sized(n) && !n.isLeaf && n.cnt == |keys| && |addrs| == n.cnt + 1
    && n.keys[..n.cnt] == keys && n.kids[..n.cnt + 1] == addrs
  }

  /** Shift keys and children right from i and store a separator and its right child. */
  function AddChild(n: BNode, i: nat, sep: int, child: nat): BNode
    requires Sized(n) && i <= n.cnt < MAX_ORDER - 1
  {
    n.(keys := Move(n.keys, i + 1, i, n.cnt - i)[i := sep],
       kids := Move(n.kids, i + 2, i + 1, n.cnt - i + 1)[i + 1 := child],
       cnt := n.cnt + 1)
  }

  /** Copy everything right of key `split` into a new internal node. */
  function TakeKids(r: BNode, n: BNode, split: nat): BNode
    requires Sized(r) && Sized(n) && split < n.cnt
  {
    var rk := n.cnt - split - 1;
    r.(keys := Copy(r.keys, n.keys, split + 1, rk), kids := Copy(r.kids, n.kids, split + 1, rk + 1), cnt := rk)
  }

  lemma AddChildImg(n: BNode, keys: seq<int>, addrs: seq<nat>, i: nat, sep: int, child: nat)
    requires NodeImg(n, keys, addrs) && i <= n.cnt < MAX_ORDER - 1
    ensures NodeImg(AddChild(n, i, sep, child), keys[..i] + [sep] + keys[i..], addrs[..i + 1] + [child] + addrs[i + 1..])
  {
    ShiftIn(n.keys, n.cnt, i, sep);
    ShiftInChild(n.kids, n.cnt, i, child);
  }

  lemma TakeKidsImg(n: BNode, r: BNode, ks: seq<int>, addrs: seq<nat>, c: nat)
    requires NodeImg(n, ks, addrs) && Sized(r) && !r.isLeaf && c < n.cnt
    ensures NodeImg(n.(cnt := c), ks[..c], addrs[..c + 1])
    ensures NodeImg(TakeKids(r, n, c), ks[c + 1..], addrs[c + 1..])
  {
    assert n.keys[c + 1..n.cnt] == n.keys[..n.cnt][c + 1..] && n.kids[c + 1..n.cnt + 1] == n.kids[..n.cnt + 1][c + 1..];
    assert n.keys[..c] == n.keys[..n.cnt][..c] && n.kids[..c + 1] == n.kids[..n.cnt + 1][..c + 1];
  }

  lemma NodeImgAt(heap: Heap, p: nat, keys: seq<int>, kids: seq<Tree>)
    ensures NodeAt(heap, p, keys, kids) <==> p in heap && p != 0 && NodeImg(heap[p], keys, Addrs(kids))
  {
    if p in heap && p != 0 && NodeImg(heap[p], keys, Addrs(kids)) {
      assert forall i :: 0 <= i < |kids| ==> heap[p].kids[i] == heap[p].kids[..heap[p].cnt + 1][i];
    }
  }

  /** Memory after node p, grown to n, is stored back, split if it is over-full. */
  function StoreNode(heap: Heap, p: nat, n: BNode, m: nat, right: nat): Heap
    requires Sized(n) && 0 < m
  {
    if n.cnt < m then heap[p := n]
    else heap[right := TakeKids(NewNode(false), n, n.cnt / 2)][p := n.(cnt := n.cnt / 2)]
  }

  /** The node p of a tree whose children are already in place. */
  ghost predicate NodeReady(heap: Heap, alloc: nat, p: nat, cs: seq<Tree>, tail: nat) {
    && Fresh(heap, alloc) && p in heap && p != 0
    && MatchesAll(heap, cs) && DistinctAll(cs) && p !in PtrsAll(cs) && PtrsAll(cs) <= heap.Keys
    && Linked(heap, LeavesAll(cs), tail)
  }

  lemma ChildrenKeep(heap: Heap, heap': Heap, alloc: nat, p: nat, cs: seq<Tree>, tail: nat)
    requires NodeReady(heap, alloc, p, cs, tail) && Agree(heap, heap', heap.Keys - {p})
    ensures MatchesAll(heap', cs) && Linked(heap', LeavesAll(cs), tail)
  {
    MatchesAllFrame(heap, heap', cs);
    LeavesAllInPtrs(cs);
    LinkedFrame(heap, heap', LeavesAll(cs), tail);
  }

  lemma AbsorbWhole(heap: Heap, alloc: nat, p: nat, n: BNode, ks: seq<int>, cs: seq<Tree>, tail: nat)
    requires NodeReady(heap, alloc, p, cs, tail) && NodeImg(n, ks, Addrs(cs))
    ensures var heap' := heap[p := n];
            && Fresh(heap', alloc) && Agree(heap, heap', heap.Keys - {p})
            && Matches(heap', Node(p, ks, cs)) && Linked(heap', LeavesAll(cs), tail)
  {
    var heap' := heap[p := n];
    ChildrenKeep(heap, heap', alloc, p, cs, tail);
    NodeImgAt(heap', p, ks, cs);
    NodeMatches(heap', p, ks, cs);
  }

  lemma AbsorbSplit(heap: Heap, alloc: nat, p: nat, n: BNode, ks: seq<int>, cs: seq<Tree>, c: nat, tail: nat)
    requires NodeReady(heap, alloc, p, cs, tail) && NodeImg(n, ks, Addrs(cs)) && c < |ks|
    ensures var heap' := heap[alloc := TakeKids(NewNode(false), n, c)][p := n.(cnt := c)];
            && Fresh(heap', alloc + 1) && Agree(heap, heap', heap.Keys - {p})
            && Matches(heap', Node(p, ks[..c], cs[..c + 1])) && Matches(heap', Node(alloc, ks[c + 1..], cs[c + 1..]))
            && Linked(heap', LeavesAll(cs[..c + 1]) + LeavesAll(cs[c + 1..]), tail)
  {
    var heap' := heap[alloc := TakeKids(NewNode(false), n, c)][p := n.(cnt := c)];
    ChildrenKeep(heap, heap', alloc, p, cs, tail);
    TakeKidsImg(n, NewNode(false), ks, Addrs(cs), c);
    assert Addrs(cs)[..c + 1] == Addrs(cs[..c + 1]) && Addrs(cs)[c + 1..] == Addrs(cs[c + 1..]);
    NodeImgAt(heap', p, ks[..c], cs[..c + 1]);
    NodeImgAt(heap', alloc, ks[c + 1..], cs[c + 1..]);
    NodeMatches(heap', p, ks[..c], cs[..c + 1]);
    NodeMatches(heap', alloc, ks[c + 1..], cs[c + 1..]);
    assert cs == cs[..c + 1] + cs[c + 1..];
    LeavesAllAppend(cs[..c + 1], cs[c + 1..]);
  }

  lemma AddrsSpliced(kids: seq<Tree>, i: nat, l: Tree, r: Tree)
    requires i < |kids| && l.ptr == kids[i].ptr
    ensures Addrs(kids[..i] + [l, r] + kids[i + 1..]) == Addrs(kids)[..i + 1] + [r.ptr] + Addrs(kids)[i + 1..]
  {
  }

  lemma StoreOutcome(heap: Heap, alloc: nat, p: nat, n: BNode, ks: seq<int>, cs: seq<Tree>, m: nat, tail: nat)
    requires 8 <= m <= 32 && |ks| <= m && NodeReady(heap, alloc, p, cs, tail) && NodeImg(n, ks, Addrs(cs))
    ensures if |ks| < m then Outcome(heap, alloc, StoreNode(heap, p, n, m, alloc), alloc, {p}, SplitNode(p, ks, cs, m, alloc), 1, tail, 1, 0, 0) == true
            else Outcome(heap, alloc, StoreNode(heap, p, n, m, alloc), alloc + 1, {p}, SplitNode(p, ks, cs, m, alloc), 1, tail, 2, n.keys[m / 2], alloc) == true
  {
    if |ks| < m {
      AbsorbWhole(heap, alloc, p, n, ks, cs, tail);
    } else {
      StoreSplit(heap, alloc, p, n, ks, cs, m, tail);
    }
  }

  lemma StoreSplit(heap: Heap, alloc: nat, p: nat, n: BNode, ks: seq<int>, cs: seq<Tree>, m: nat, tail: nat)
    requires 8 <= m <= 32 && |ks| == m && NodeReady(heap, alloc, p, cs, tail) == true && NodeImg(n, ks, Addrs(cs)) == true
    ensures Outcome(heap, alloc, StoreNode(heap, p, n, m, alloc), alloc + 1, {p}, SplitNode(p, ks, cs, m, alloc), 1, tail, 2, n.keys[m / 2], alloc) == true
  {
    AbsorbSplit(heap, alloc, p, n, ks, cs, m / 2, tail);
    assert n.keys[m / 2] == n.keys[..n.cnt][m / 2];
  }

  lemma GrownImg(heap: Heap, p: nat, keys: seq<int>, kids: seq<Tree>, i: nat, l: Tree, s: int, r: Tree)
    requires i < |kids| && |keys| < MAX_ORDER - 1 && NodeAt(heap, p, keys, kids) && l.ptr == kids[i].ptr
    ensures NodeImg(AddChild(heap[p], i, s, r.ptr), keys[..i] + [s] + keys[i..], Addrs(kids[..i] + [l, r] + kids[i + 1..]))
  {
    NodeImgAt(heap, p, keys, kids);
    AddChildImg(heap[p], keys, Addrs(kids), i, s, r.ptr);
    AddrsSpliced(kids, i, l, r);
  }

  // ------------------------------------------------------------- whole subtrees

  /** A subtree in memory, ready for an operation on key k. */
  ghost predicate Ready(heap: Heap, alloc: nat, t: Tree, h: nat, lo: int, hi: int, m: nat, tail: nat) {
    && 8 <= m <= 32 && Fresh(heap, alloc)
    && WF(t, h, lo, hi, m) && Distinct(t) && Matches(heap, t) && Linked(heap, Leaves(t), tail)
  }

  lemma ReadyLeaf(heap: Heap, alloc: nat, t: Tree, h: nat, lo: int, hi: int, m: nat, tail: nat)
    requires Ready(heap, alloc, t, h, lo, hi, m, tail) && t.Leaf?
    ensures h == 1 && LeafReady(heap, alloc, t.ptr, t.keys, t.vals, m, tail)
  {
    assert Leaves(t) == [t.ptr];
    assert [t.ptr][1..] == [];
  }

  lemma ReadyChild(heap: Heap, alloc: nat, t: Tree, h: nat, lo: int, hi: int, m: nat, tail: nat, i: nat)
    requires Ready(heap, alloc, t, h, lo, hi, m, tail) && t.Node? && i < |t.kids|
    ensures Ready(heap, alloc, t.kids[i], h - 1, Lo(t.keys, i, lo), Hi(t.keys, i, hi), m, Head(LeavesAll(t.kids[i + 1..]), tail))
  {
    AddrsAt(t.kids, i);
    LeavesNonEmpty(t.kids[i], h - 1, Lo(t.keys, i, lo), Hi(t.keys, i, hi), m);
    LeavesAllAt(t.kids, i);
    LinkedSplit3(heap, LeavesAll(t.kids[..i]), Leaves(t.kids[i]), LeavesAll(t.kids[i + 1..]), tail);
  }

  /** Work below child i leaves its siblings and the chain around it alone. */
  lemma SiblingsKeep(heap: Heap, heap': Heap, kids: seq<Tree>, i: nat, tail: nat)
    requires i < |kids| && MatchesAll(heap, kids) && DistinctAll(kids) && Leaves(kids[i]) != []
    requires Linked(heap, LeavesAll(kids), tail) && Agree(heap, heap', heap.Keys - Ptrs(kids[i]))
    ensures MatchesAll(heap', kids[..i]) && MatchesAll(heap', kids[i + 1..])
    ensures Linked(heap', LeavesAll(kids[..i]), Leaves(kids[i])[0]) && Linked(heap', LeavesAll(kids[i + 1..]), tail)
  {
    AddrsAt(kids, i);
    assert MatchesAll(heap, kids[..i]) && MatchesAll(heap, kids[i + 1..]);
    MatchesAllFrame(heap, heap', kids[..i]);
    MatchesAllFrame(heap, heap', kids[i + 1..]);
    LeavesAllAt(kids, i);
    LinkedSplit3(heap, LeavesAll(kids[..i]), Leaves(kids[i]), LeavesAll(kids[i + 1..]), tail);
    LeavesAllInPtrs(kids[..i]);
    LeavesAllInPtrs(kids[i + 1..]);
    MatchesAllPtrs(heap, kids[..i]);
    MatchesAllPtrs(heap, kids[i + 1..]);
    LinkedFrame(heap, heap', LeavesAll(kids[..i]), Leaves(kids[i])[0]);
    LinkedFrame(heap, heap', LeavesAll(kids[i + 1..]), tail);
  }

  lemma MatchesAllPtrs(heap: Heap, ts: seq<Tree>)
    requires MatchesAll(heap, ts)
    ensures PtrsAll(ts) <= heap.Keys - {0}
  {
    forall i | 0 <= i < |ts| ensures Ptrs(ts[i]) <= heap.Keys - {0} {
      MatchesPtrs(heap, ts[i]);
    }
    PtrsAllBound(ts, heap.Keys - {0});
  }

  /** The state of a node right after inserting into its child i. */
  ghost predicate ChildDone(heap0: Heap, alloc0: nat, heap: Heap, alloc: nat, t: Tree, h: nat, lo: int, hi: int, m: nat, tail: nat, i: nat, sub: Ins, res: int, sep: int, child: nat) {
    && Ready(heap0, alloc0, t, h, lo, hi, m, tail)
    && t.Node? && i < |t.kids| && h > 1
    && Leaves(t.kids[i]) != []
    && Placed(Ptrs(t.kids[i]), t.kids[i].ptr, Leaves(t.kids[i])[0], sub, alloc0, h - 2)
    && Outcome(heap0, alloc0, heap, alloc, Ptrs(t.kids[i]), sub, h - 1, Head(LeavesAll(t.kids[i + 1..]), tail), res, sep, child)
  }

  lemma NodeKept(heap0: Heap, alloc0: nat, heap: Heap, alloc: nat, t: Tree, h: nat, lo: int, hi: int, m: nat, tail: nat, i: nat, sub: Ins, res: int, sep: int, child: nat)
    requires ChildDone(heap0, alloc0, heap, alloc, t, h, lo, hi, m, tail, i, sub, res, sep, child)
    ensures NodeAt(heap, t.ptr, t.keys, t.kids) && AllBelow(Ptrs(t), alloc0)
    ensures t.ptr !in PtrsAll(t.kids) && DistinctAll(t.kids)
    ensures KidsLeafy(t.kids)
    ensures MatchesAll(heap, t.kids[..i]) && MatchesAll(heap, t.kids[i + 1..])
    ensures Linked(heap, LeavesAll(t.kids[..i]), Leaves(t.kids[i])[0]) && Linked(heap, LeavesAll(t.kids[i + 1..]), tail)
  {
    KidsLeafyWF(t, h, lo, hi, m);
    NodeMatches(heap0, t.ptr, t.keys, t.kids);
    SiblingsKeep(heap0, heap, t.kids, i, tail);
    MatchesPtrs(heap0, t);
    AddrsAt(t.kids, i);
  }

  lemma SplicedReady(heap0: Heap, alloc0: nat, heap: Heap, alloc: nat, t: Tree, h: nat, lo: int, hi: int, m: nat, tail: nat, i: nat, l: Tree, s: int, r: Tree, sep: int, child: nat)
    requires ChildDone(heap0, alloc0, heap, alloc, t, h, lo, hi, m, tail, i, Two(l, s, r), 2, sep, child)
    ensures NodeAt(heap, t.ptr, t.keys, t.kids) && l.ptr == t.kids[i].ptr
    ensures NodeReady(heap, alloc, t.ptr, t.kids[..i] + [l, r] + t.kids[i + 1..], tail) == true
  {
    NodeKept(heap0, alloc0, heap, alloc, t, h, lo, hi, m, tail, i, Two(l, s, r), 2, sep, child);
    SplicePlaced(t.ptr, t.kids, i, l, s, r, alloc0, h - 2);
    var cs := t.kids[..i] + [l, r] + t.kids[i + 1..];
    MatchesSplice(heap, t.kids, i, l, r);
    MatchesAllPtrs(heap, cs);
    LeavesSplice(t.kids, i, l, r);
    LinkedSplit3(heap, LeavesAll(t.kids[..i]), Leaves(l) + Leaves(r), LeavesAll(t.kids[i + 1..]), tail);
  }

  /** What a node starts from when its child i has split. */
  lemma SplitChild(heap0: Heap, alloc0: nat, heap: Heap, alloc: nat, t: Tree, h: nat, lo: int, hi: int, m: nat, tail: nat, i: nat, sub: Ins, sep: int, child: nat)
    requires ChildDone(heap0, alloc0, heap, alloc, t, h, lo, hi, m, tail, i, sub, 2, sep, child)
    ensures sub == Two(sub.l, sep, sub.r) && alloc == alloc0 + h - 1 && h > 1 && t.Node? && i < |t.kids| && |t.keys| < m && 8 <= m <= 32
    ensures NodeAt(heap, t.ptr, t.keys, t.kids) == true && sub.l.ptr == t.kids[i].ptr && sub.r.ptr == child && |t.kids| == |t.keys| + 1
    ensures NodeReady(heap, alloc, t.ptr, t.kids[..i] + [sub.l, sub.r] + t.kids[i + 1..], tail) == true
    ensures Ptrs(t.kids[i]) <= Ptrs(t) && Agree(heap0, heap, heap0.Keys - Ptrs(t.kids[i])) == true
    ensures !NodeIns(t.ptr, t.keys, t.kids, m, i, sub, alloc).Dup?
  {
    SplicedReady(heap0, alloc0, heap, alloc, t, h, lo, hi, m, tail, i, sub.l, sub.sep, sub.r, sep, child);
    KidPtrs(t.kids, i);
  }

  lemma MatchesSplice(heap: Heap, kids: seq<Tree>, i: nat, l: Tree, r: Tree)
    requires i < |kids| && MatchesAll(heap, kids[..i]) && MatchesAll(heap, kids[i + 1..]) && Matches(heap, l) && Matches(heap, r)
    ensures MatchesAll(heap, kids[..i] + [l, r] + kids[i + 1..])
  {
    var cs := kids[..i] + [l, r] + kids[i + 1..];
    forall j | 0 <= j < |cs| ensures Matches(heap, cs[j]) {
      if j < i { assert cs[j] == kids[..i][j]; }
      if j > i + 1 { assert cs[j] == kids[i + 1..][j - i - 2]; }
    }
  }

  /** Child i kept its place: the node itself needs no change. */
  lemma ReplacedDone(heap0: Heap, alloc0: nat, heap: Heap, alloc: nat, t: Tree, h: nat, lo: int, hi: int, m: nat, tail: nat, i: nat, u: Tree, sep: int, child: nat)
    requires ChildDone(heap0, alloc0, heap, alloc, t, h, lo, hi, m, tail, i, One(u), 1, sep, child)
    ensures Outcome(heap0, alloc0, heap, alloc, Ptrs(t), One(Node(t.ptr, t.keys, t.kids[i := u])), h, tail, 1, sep, child)
  {
    NodeKept(heap0, alloc0, heap, alloc, t, h, lo, hi, m, tail, i, One(u), 1, sep, child);
    var cs := t.kids[i := u];
    assert cs[..i] == t.kids[..i] && cs[i + 1..] == t.kids[i + 1..];
    MatchesReplace(heap, t.kids, i, u);
    NodeMatches(heap, t.ptr, t.keys, cs);
    LeavesAllAt(cs, i);
    LinkedSplit3(heap, LeavesAll(cs[..i]), Leaves(u), LeavesAll(cs[i + 1..]), tail);
    AddrsAt(t.kids, i);
  }

  lemma MatchesReplace(heap: Heap, kids: seq<Tree>, i: nat, u: Tree)
    requires i < |kids| && MatchesAll(heap, kids[..i]) && MatchesAll(heap, kids[i + 1..]) && Matches(heap, u)
    ensures MatchesAll(heap, kids[i := u])
  {
    var cs := kids[i := u];
    forall j | 0 <= j < |cs| ensures Matches(heap, cs[j]) {
      if j < i { assert kids[j] == kids[..i][j]; }
      if j > i { assert kids[j] == kids[i + 1..][j - i - 1]; }
    }
  }

  lemma AgreeTrans(heap0: Heap, heap1: Heap, heap2: Heap, s1: set<nat>, s2: set<nat>, s: set<nat>)
    requires Agree(heap0, heap1, heap0.Keys - s1) && Agree(heap1, heap2, heap1.Keys - s2) && s1 <= s && s2 <= s
    ensures Agree(heap0, heap2, heap0.Keys - s)
  {
  }

  /** Both phases of an insert through node t, composed. */
  lemma AbsorbedDone(heap0: Heap, alloc0: nat, heap1: Heap, alloc1: nat, heap: Heap, alloc: nat, t: Tree, h: nat, tail: nat, own: set<nat>, r: Ins, res: int, sep: int, child: nat)
    requires t.Node? && h > 1 && own <= Ptrs(t) && alloc1 == alloc0 + h - 1
    requires Agree(heap0, heap1, heap0.Keys - own)
    requires Outcome(heap1, alloc1, heap, alloc, {t.ptr}, r, 1, tail, res, sep, child) == true && !r.Dup?
    ensures Outcome(heap0, alloc0, heap, alloc, Ptrs(t), r, h, tail, res, sep, child) == true
  {
    AgreeTrans(heap0, heap1, heap, own, {t.ptr}, Ptrs(t));
  }

  lemma ChildPlaced(heap0: Heap, alloc0: nat, heap: Heap, alloc: nat, t: Tree, h: nat, lo: int, hi: int, m: nat, tail: nat, i: nat, key: int, row: int, res: int, sep: int, child: nat)
    requires Ready(heap0, alloc0, t, h, lo, hi, m, tail) && t.Node? && i < |t.kids|
    requires var sub := Insert(t.kids[i], h - 1, Lo(t.keys, i, lo), Hi(t.keys, i, hi), m, key, row, alloc0);
             Outcome(heap0, alloc0, heap, alloc, Ptrs(t.kids[i]), sub, h - 1, Head(LeavesAll(t.kids[i + 1..]), tail), res, sep, child)
    ensures var sub := Insert(t.kids[i], h - 1, Lo(t.keys, i, lo), Hi(t.keys, i, hi), m, key, row, alloc0);
            ChildDone(heap0, alloc0, heap, alloc, t, h, lo, hi, m, tail, i, sub, res, sep, child)
  {
    ReadyChild(heap0, alloc0, t, h, lo, hi, m, tail, i);
    MatchesPtrs(heap0, t.kids[i]);
    InsertPlaced(t.kids[i], h - 1, Lo(t.keys, i, lo), Hi(t.keys, i, hi), m, key, row, alloc0);
  }

  /** A whole tree in memory. */
  ghost predicate TreeAt(heap: Heap, alloc: nat, t: Tree, h: nat, lo: int, hi: int, m: nat) {
    && WF(t, h, lo, hi, m) && Distinct(t) && Matches(heap, t)
    && Linked(heap, Leaves(t), 0)
    && Fresh(heap, alloc)
  }

  // ------------------------------------------------------------ scans and deletes

  lemma {:induction false} LeafTreesMatch(heap: Heap, t: Tree)
    requires Matches(heap, t)
    ensures MatchesAll(heap, LeafTrees(t)) && Leaves(t) == Addrs(LeafTrees(t))
    ensures forall i :: 0 <= i < |LeafTrees(t)| ==> LeafTrees(t)[i].Leaf?
    decreases t, 0
  {
    if t.Node? {
      LeafTreesAllMatch(heap, t.kids);
    }
  }

  lemma {:induction false} LeafTreesAllMatch(heap: Heap, ts: seq<Tree>)
    requires MatchesAll(heap, ts)
    ensures MatchesAll(heap, LeafTreesAll(ts)) && LeavesAll(ts) == Addrs(LeafTreesAll(ts))
    ensures forall i :: 0 <= i < |LeafTreesAll(ts)| ==> LeafTreesAll(ts)[i].Leaf?
    decreases ts, 1
  {
    if ts != [] {
      LeafTreesMatch(heap, ts[0]);
      LeafTreesAllMatch(heap, ts[1..]);
    }
  }

  /** One step of a range scan: what is left of leaf j and of the leaves after it. */
  lemma ScanStep(z: Pairs, i: nat, rest: Pairs, x: int, y: int)
    requires i < |z|
    ensures z[i..] + rest == [z[i]] + (z[i + 1..] + rest)
    ensures Range(z[i..] + rest, x, y) ==
            if x <= z[i].0 <= y then [z[i]] + Range(z[i + 1..] + rest, x, y) else Range(z[i + 1..] + rest, x, y)
  {
    assert z[i..] + rest == [z[i]] + (z[i + 1..] + rest);
    assert ([z[i]] + (z[i + 1..] + rest))[1..] == z[i + 1..] + rest;
  }

  /** A run of leaves in memory, chained to the end and sorted. */
  ghost predicate Chain(heap: Heap, leaves: seq<Tree>) {
    && MatchesAll(heap, leaves) && Linked(heap, Addrs(leaves), 0) && SortedPairs(FlatAll(leaves))
    && forall i :: 0 <= i < |leaves| ==> leaves[i].Leaf? && |leaves[i].keys| == |leaves[i].vals|
  }

  lemma ChainStep(heap: Heap, leaves: seq<Tree>)
    requires Chain(heap, leaves) && Head(Addrs(leaves), 0) != 0
    ensures leaves != [] && Chain(heap, leaves[1..])
    ensures heap[leaves[0].ptr].next == Head(Addrs(leaves[1..]), 0)
    ensures FlatAll(leaves) == Flat(leaves[0]) + FlatAll(leaves[1..])
  {
    assert Addrs(leaves)[1..] == Addrs(leaves[1..]);
    var z, rest := Flat(leaves[0]), FlatAll(leaves[1..]);
    assert forall i :: 0 <= i < |rest| ==> rest[i] == (z + rest)[|z| + i];
  }

  lemma ChainEnd(heap: Heap, leaves: seq<Tree>)
    requires Chain(heap, leaves) && Head(Addrs(leaves), 0) == 0
    ensures leaves == []
  {
    assert leaves != [] ==> Matches(heap, leaves[0]);
  }

  lemma SortedSuffix(x: Pairs, y: Pairs)
    requires SortedPairs(x + y)
    ensures SortedPairs(y)
  {
    assert forall i :: 0 <= i < |y| ==> y[i] == (x + y)[|x| + i];
  }

  lemma AddrsOfAppend(a: seq<Tree>, b: seq<Tree>)
    ensures Addrs(a + b) == Addrs(a) + Addrs(b)
  {
  }

  lemma ChainSuffix(heap: Heap, a: seq<Tree>, b: seq<Tree>)
    requires Chain(heap, a + b)
    ensures Chain(heap, b) && FlatAll(a + b) == FlatAll(a) + FlatAll(b)
  {
    assert forall i :: 0 <= i < |b| ==> b[i] == (a + b)[|a| + i];
    AddrsOfAppend(a, b);
    LinkedSplit(heap, Addrs(a), Addrs(b), 0);
    FlatAllAppend(a, b);
    SortedSuffix(FlatAll(a), FlatAll(b));
  }

  lemma WholeChain(heap: Heap, t: Tree, h: nat, lo: int, hi: int, m: nat)
    requires WF(t, h, lo, hi, m) && Matches(heap, t) && Linked(heap, Leaves(t), 0)
    ensures Chain(heap, LeafTrees(t)) && FlatAll(LeafTrees(t)) == Flat(t)
  {
    LeafTreesMatch(heap, t);
    LeafTreesFlat(t);
    FlatSorted(t, h, lo, hi, m);
    LeafTreesWF(t, h, lo, hi, m);
  }

  /** A range scan may start at the leaf of the descent: nothing left of it is in range. */
  lemma ScanStart(heap: Heap, t: Tree, h: nat, lo: int, hi: int, m: nat, start: int, end: int) returns (leaves: seq<Tree>)
    requires WF(t, h, lo, hi, m) && Matches(heap, t) && Linked(heap, Leaves(t), 0) && lo <= start < hi
    ensures Chain(heap, leaves) && Head(Addrs(leaves), 0) == LeafFor(t, h, lo, hi, m, start).ptr
    ensures Range(FlatAll(leaves), start, end) == Range(Flat(t), start, end)
  {
    var a, c := LeafForSplits(t, h, lo, hi, m, start);
    leaves := [LeafFor(t, h, lo, hi, m, start)] + c;
    assert LeafTrees(t) == a + leaves;
    WholeChain(heap, t, h, lo, hi, m);
    ChainSuffix(heap, a, leaves);
    RangeAppend(FlatAll(a), FlatAll(leaves), start, end);
    RangeOutside(FlatAll(a), start, end);
  }

  lemma {:induction false} LeafTreesWF(t: Tree, h: nat, lo: int, hi: int, m: nat)
    requires WF(t, h, lo, hi, m)
    ensures forall i :: 0 <= i < |LeafTrees(t)| ==> LeafTrees(t)[i].Leaf? && |LeafTrees(t)[i].keys| == |LeafTrees(t)[i].vals|
    decreases h, 1, 0
  {
    if t.Node? {
      LeafTreesAllWF(t.keys, t.kids, h, lo, hi, m, 0);
      assert t.kids[0..] == t.kids;
    }
  }

  lemma {:induction false} LeafTreesAllWF(keys: seq<int>, kids: seq<Tree>, h: nat, lo: int, hi: int, m: nat, i: nat)
    requires Body(keys, kids, h, lo, hi, m) && i <= |kids|
    ensures forall j :: 0 <= j < |LeafTreesAll(kids[i..])| ==>
              LeafTreesAll(kids[i..])[j].Leaf? && |LeafTreesAll(kids[i..])[j].keys| == |LeafTreesAll(kids[i..])[j].vals|
    decreases h, 0, |kids| - i
  {
    if i < |kids| {
      LeafTreesWF(kids[i], h - 1, Lo(keys, i, lo), Hi(keys, i, hi), m);
      LeafTreesAllWF(keys, kids, h, lo, hi, m, i + 1);
      assert kids[i..][1..] == kids[i + 1..];
    }
  }

  /** A tree u that took the place of t after node q was rewritten. */
  ghost predicate Rewritten(heap: Heap, t: Tree, u: Tree, q: nat, n: BNode) {
    && u.ptr == t.ptr && Ptrs(u) == Ptrs(t) && Distinct(u) && Leaves(u) == Leaves(t)
    && q in Ptrs(t) && Matches(heap[q := n], u)
  }

  ghost predicate LeafWithout(leaf: Tree, k: int, q: nat, n: BNode)
    requires leaf.Leaf? && |leaf.keys| == |leaf.vals| && Sorted(leaf.keys)
  {
    var i := LowerBound(leaf.keys, k);
    && q == leaf.ptr && i < |leaf.keys| && leaf.keys[i] == k
    && LeafImg(n, leaf.keys[..i] + leaf.keys[i + 1..], leaf.vals[..i] + leaf.vals[i + 1..])
  }

  /** Where deletion happens: the leaf of the descent, and nowhere else. */
  lemma {:induction false} DeleteInMemory(heap: Heap, t: Tree, h: nat, lo: int, hi: int, m: nat, k: int, q: nat, n: BNode)
    requires WF(t, h, lo, hi, m) && Distinct(t) && Matches(heap, t)
    requires LeafWithout(LeafFor(t, h, lo, hi, m, k), k, q, n)
    ensures Rewritten(heap, t, Delete(t, h, lo, hi, m, k), q, n) == true
    decreases h
  {
    if t.Node? {
      var i := UpperBound(t.keys, k);
      AddrsAt(t.kids, i);
      DeleteInMemory(heap, t.kids[i], h - 1, Lo(t.keys, i, lo), Hi(t.keys, i, hi), m, k, q, n);
      var u := Delete(t.kids[i], h - 1, Lo(t.keys, i, lo), Hi(t.keys, i, hi), m, k);
      NodeMatches(heap, t.ptr, t.keys, t.kids);
      DeleteInNode(heap, t.ptr, t.keys, t.kids, i, u, q, n);
    }
  }

  lemma DeleteInNode(heap: Heap, p: nat, keys: seq<int>, kids: seq<Tree>, i: nat, u: Tree, q: nat, n: BNode)
    requires i < |kids| && NodeAt(heap, p, keys, kids) && MatchesAll(heap, kids) && DistinctAll(kids) && p !in PtrsAll(kids)
    requires Rewritten(heap, kids[i], u, q, n)
    ensures Rewritten(heap, Node(p, keys, kids), Node(p, keys, kids[i := u]), q, n) == true
  {
    DeletePtrs(p, keys, kids, i, u);
    DeleteMatches(heap, p, keys, kids, i, u, q, n);
  }

  lemma DeletePtrs(p: nat, keys: seq<int>, kids: seq<Tree>, i: nat, u: Tree)
    requires i < |kids| && DistinctAll(kids) && p !in PtrsAll(kids) && Ptrs(u) == Ptrs(kids[i]) && Distinct(u) && Leaves(u) == Leaves(kids[i])
    ensures PtrsAll(kids[i := u]) == PtrsAll(kids) && Ptrs(kids[i]) <= PtrsAll(kids)
    ensures Distinct(Node(p, keys, kids[i := u])) && Leaves(Node(p, keys, kids[i := u])) == Leaves(Node(p, keys, kids))
  {
    var cs := kids[i := u];
    assert cs[..i] == kids[..i] && cs[i + 1..] == kids[i + 1..];
    AddrsAt(kids, i);
    AddrsAt(cs, i);
    LeavesAllAt(kids, i);
    LeavesAllAt(cs, i);
  }

  lemma DeleteMatches(heap: Heap, p: nat, keys: seq<int>, kids: seq<Tree>, i: nat, u: Tree, q: nat, n: BNode)
    requires i < |kids| && NodeAt(heap, p, keys, kids) && MatchesAll(heap, kids) && DistinctAll(kids) && p !in PtrsAll(kids)
    requires u.ptr == kids[i].ptr && q in Ptrs(kids[i]) && Matches(heap[q := n], u)
    ensures Matches(heap[q := n], Node(p, keys, kids[i := u]))
  {
    var heap' := heap[q := n];
    AddrsAt(kids, i);
    assert MatchesAll(heap, kids[..i]) && MatchesAll(heap, kids[i + 1..]);
    MatchesAllFrame(heap, heap', kids[..i]);
    MatchesAllFrame(heap, heap', kids[i + 1..]);
    MatchesReplace(heap', kids, i, u);
    NodeMatches(heap', p, keys, kids[i := u]);
  }

  lemma {:induction false} LeafForMatches(heap: Heap, t: Tree, h: nat, lo: int, hi: int, m: nat, k: int)
    requires WF(t, h, lo, hi, m) && Matches(heap, t) && lo <= k < hi
    ensures var leaf := LeafFor(t, h, lo, hi, m, k);
            && Matches(heap, leaf) && |leaf.keys| == |leaf.vals| && Sorted(leaf.keys)
            && (k in ToMap(Flat(t)) <==> k in ToMap(Flat(leaf)))
            && (k in ToMap(Flat(t)) ==> ToMap(Flat(t))[k] == ToMap(Flat(leaf))[k])
    decreases h
  {
    if t.Node? {
      var i := UpperBound(t.keys, k);
      DescendLookup(t.keys, t.kids, h, lo, hi, m, k);
      DescendSplit(t.keys, t.kids, h, lo, hi, m, k);
      LeafForMatches(heap, t.kids[i], h - 1, Lo(t.keys, i, lo), Hi(t.keys, i, hi), m, k);
    }
  }

  lemma LeafLookup(keys: seq<int>, vals: seq<int>, k: int)
    requires |keys| == |vals| && Sorted(keys)
    ensures var i := LowerBound(keys, k);
            && (k in ToMap(Zip(keys, vals)) <==> i < |keys| && keys[i] == k)
            && (i < |keys| && keys[i] == k ==> ToMap(Zip(keys, vals))[k] == vals[i])
  {
    var i := LowerBound(keys, k);
    LeafHasKey(keys, vals, k);
    ToMapKeys(Zip(keys, vals));
    if i < |keys| && keys[i] == k {
      ToMapAt(Zip(keys, vals), i);
    }
  }

  // ----------------------------------------------------------------- bulk builds

  function KeysOf(ps: Pairs): (r: seq<int>)
    ensures |r| == |ps| && forall i :: 0 <= i < |r| ==> r[i] == ps[i].0
  {
    seq(|ps|, i requires 0 <= i < |ps| => ps[i].0)
  }

  function ValsOf(ps: Pairs): (r: seq<int>)
    ensures |r| == |ps| && forall i :: 0 <= i < |r| ==> r[i] == ps[i].1
  {
    seq(|ps|, i requires 0 <= i < |ps| => ps[i].1)
  }

  function LeafOf(p: nat, ps: Pairs): Tree {
    Leaf(p, KeysOf(ps), ValsOf(ps))
  }

  function NormalizeOrder(order: int): (m: nat)
    ensures ValidOrder(m)
  {
    if order <= 8 then 8 else if order <= 16 then 16 else if order <= 32 then 32 else 64
  }

  function ChooseOrder(count: nat): (m: nat)
    ensures ValidOrder(m)
  {
    if count < 4096 then 8 else if count < 65536 then 16 else if count < 262144 then 32 else 64
  }

  /** A level in memory: separate trees whose leaves form one chain. */
  ghost predicate LevelAt(heap: Heap, alloc: nat, ts: seq<Tree>) {
    && Fresh(heap, alloc) && MatchesAll(heap, ts) && DistinctAll(ts) && Linked(heap, LeavesAll(ts), 0)
  }

  /** Nothing that was in memory has changed, and the level lives in new memory. */
  ghost predicate Untouched(heap0: Heap, alloc0: nat, heap: Heap, alloc: nat, ts: seq<Tree>) {
    && alloc0 <= alloc
    && (forall p :: p in heap0 ==> p in heap && heap[p] == heap0[p])
    && (forall p :: p in PtrsAll(ts) ==> p >= alloc0)
  }

  lemma GrownUntouched(heap0: Heap, alloc0: nat, heap: Heap, alloc: nat, ts: seq<Tree>, t: Tree, n: BNode, heap': Heap)
    requires Untouched(heap0, alloc0, heap, alloc, ts) && Fresh(heap0, alloc0) && Fresh(heap, alloc) && t.Leaf? && t.ptr == alloc
    requires (ts != [] ==> ts[|ts| - 1].ptr in heap) && heap' == HangLeaf(heap, ts, alloc, n)
    ensures Untouched(heap0, alloc0, heap', alloc + 1, ts + [t])
  {
    AddrsAppend(ts, [t]);
    SingleTree(t);
    if ts != [] {
      KidPtrs(ts, |ts| - 1);
    }
  }

  /** Where the pairs after the first `n` begin. */
  ghost function BoundAt(pairs: Pairs, lo: int, hi: int, n: nat): int {
    if n == 0 then lo else if n < |pairs| then pairs[n].0 else hi
  }

  lemma LeafOfWF(pairs: Pairs, lo: int, hi: int, m: nat, start: nat, n: nat, q: nat)
    requires SortedPairs(pairs) && PairsWithin(pairs, lo, hi) && 0 < n < m && start + n <= |pairs|
    ensures var t := LeafOf(q, pairs[start..start + n]);
            var x, y := BoundAt(pairs, lo, hi, start), BoundAt(pairs, lo, hi, start + n);
            x < y && WF(t, 1, x, y, m) && HasFirst(t) && FirstKey(t) == pairs[start].0 && Flat(t) == pairs[start..start + n]
  {
    var t := LeafOf(q, pairs[start..start + n]);
    assert forall i :: 0 <= i < n ==> t.keys[i] == pairs[start + i].0;
    assert lo <= pairs[start].0 < hi;
    if start + n < |pairs| { assert pairs[start].0 < pairs[start + n].0 < hi; }
    assert Flat(t) == pairs[start..start + n];
  }

  lemma LeafAppended(pairs: Pairs, ts: seq<Tree>, F: seq<int>, lo: int, hi: int, m: nat, start: nat, n: nat, q: nat)
    requires SortedPairs(pairs) && PairsWithin(pairs, lo, hi) && 0 < n < m && start + n <= |pairs|
    requires Forest(ts, F, 1, m) && F[|ts|] == BoundAt(pairs, lo, hi, start) && (start == 0 <==> ts == [])
    requires FlatAll(ts) == pairs[..start]
    ensures var t := LeafOf(q, pairs[start..start + n]);
            && Forest(ts + [t], F + [BoundAt(pairs, lo, hi, start + n)], 1, m)
            && FlatAll(ts + [t]) == pairs[..start + n]
  {
    var t := LeafOf(q, pairs[start..start + n]);
    LeafOfWF(pairs, lo, hi, m, start, n, q);
    ForestAppend(ts, F, 1, m, t, BoundAt(pairs, lo, hi, start + n));
    FlatAllAppend(ts, [t]);
    assert FlatAll([t]) == Flat(t) + FlatAll([]);
    assert pairs[..start] + pairs[start..start + n] == pairs[..start + n];
  }

  lemma {:induction false} LeafLevel(ts: seq<Tree>)
    requires forall i :: 0 <= i < |ts| ==> ts[i].Leaf?
    ensures LeavesAll(ts) == Addrs(ts)
  {
    if ts != [] {
      LeafLevel(ts[1..]);
      assert Addrs(ts)[1..] == Addrs(ts[1..]);
    }
  }

  lemma {:induction false} DistinctAddrs(ts: seq<Tree>)
    requires DistinctAll(ts)
    ensures forall i, j :: 0 <= i < j < |ts| ==> ts[i].ptr != ts[j].ptr
  {
    if ts != [] {
      DistinctAddrs(ts[1..]);
      forall j | 0 < j < |ts| ensures ts[0].ptr != ts[j].ptr {
        KidPtrs(ts[1..], j - 1);
        assert ts[1..][j - 1] == ts[j];
      }
      assert forall j :: 0 <= j < |ts| - 1 ==> ts[1..][j] == ts[j + 1];
    }
  }

  predicate AllLeaves(ts: seq<Tree>) {
    forall i :: 0 <= i < |ts| ==> ts[i].Leaf?
  }

  lemma AddrsInHeap(heap: Heap, ts: seq<Tree>)
    requires MatchesAll(heap, ts)
    ensures forall p :: p in Addrs(ts) ==> p in heap
  {
    forall p | p in Addrs(ts) ensures p in heap {
      var i :| 0 <= i < |Addrs(ts)| && p == Addrs(ts)[i];
      assert Matches(heap, ts[i]);
    }
  }

  /** The chain after its last leaf is made to point at a new one. */
  lemma ChainGrown(heap: Heap, ps: seq<nat>, q: nat, n: BNode)
    requires ps != [] && Linked(heap, ps, 0) && n.next == 0 && q !in heap
    requires forall p :: p in ps ==> p in heap
    requires forall i, j :: 0 <= i < j < |ps| ==> ps[i] != ps[j]
    ensures var last := ps[|ps| - 1]; Linked(heap[q := n][last := heap[last].(next := q)], ps + [q], 0)
  {
    var last := ps[|ps| - 1];
    var heap' := heap[q := n][last := heap[last].(next := q)];
    RelinkLast(heap, heap', ps, q);
    LinkedSplit(heap', ps, [q], 0);
    assert Linked(heap', [q], 0) by { assert [q][1..] == []; }
  }

  /** Memory after leaf node n is stored at q and the last leaf points to it. */
  function HangLeaf(heap: Heap, ts: seq<Tree>, q: nat, n: BNode): Heap
    requires ts != [] ==> ts[|ts| - 1].ptr in heap
  {
    if ts == [] then heap[q := n]
    else var last := ts[|ts| - 1].ptr; heap[q := n][last := heap[last].(next := q)]
  }

  lemma HungMatches(heap: Heap, alloc: nat, ts: seq<Tree>, t: Tree, n: BNode)
    requires Fresh(heap, alloc) && MatchesAll(heap, ts) && AllLeaves(ts) && t.Leaf? && t.ptr == alloc && LeafImg(n, t.keys, t.vals)
    ensures (ts != [] ==> ts[|ts| - 1].ptr in heap) && MatchesAll(HangLeaf(heap, ts, alloc, n), ts + [t])
  {
    var us := ts + [t];
    if ts != [] { assert Matches(heap, ts[|ts| - 1]); }
    var heap' := HangLeaf(heap, ts, alloc, n);
    forall i | 0 <= i < |us| ensures Matches(heap', us[i]) {
      if i < |ts| { assert us[i] == ts[i] && Matches(heap, ts[i]); }
    }
  }

  lemma HungLinked(heap: Heap, alloc: nat, ts: seq<Tree>, n: BNode)
    requires LevelAt(heap, alloc, ts) && AllLeaves(ts) && n.next == 0 && (ts != [] ==> ts[|ts| - 1].ptr in heap)
    ensures Linked(HangLeaf(heap, ts, alloc, n), Addrs(ts) + [alloc], 0)
  {
    LeafLevel(ts);
    if ts == [] {
      assert Addrs(ts) + [alloc] == [alloc];
      assert [alloc][1..] == [];
    } else {
      DistinctAddrs(ts);
      AddrsInHeap(heap, ts);
      ChainGrown(heap, Addrs(ts), alloc, n);
    }
  }

  lemma LevelGrown(heap: Heap, alloc: nat, ts: seq<Tree>, t: Tree, n: BNode)
    requires LevelAt(heap, alloc, ts) && AllLeaves(ts)
    requires t.Leaf? && t.ptr == alloc && LeafImg(n, t.keys, t.vals) && n.next == 0
    ensures (ts != [] ==> ts[|ts| - 1].ptr in heap) && LevelAt(HangLeaf(heap, ts, alloc, n), alloc + 1, ts + [t])
  {
    HungMatches(heap, alloc, ts, t, n);
    HungLinked(heap, alloc, ts, n);
    LeafLevel(ts + [t]);
    AddrsAppend(ts, [t]);
    SingleTree(t);
    MatchesAllPtrs(heap, ts);
    assert Addrs(ts + [t]) == Addrs(ts) + [alloc];
  }

  lemma {:induction false} RelinkLast(heap: Heap, heap': Heap, ps: seq<nat>, q: nat)
    requires ps != [] && Linked(heap, ps, 0)
    requires forall p :: p in ps && p != ps[|ps| - 1] ==> p in heap' && p in heap && heap'[p].next == heap[p].next
    requires ps[|ps| - 1] in heap' && heap'[ps[|ps| - 1]].next == q
    requires forall i, j :: 0 <= i < j < |ps| ==> ps[i] != ps[j]
    ensures Linked(heap', ps, q)
  {
    if |ps| > 1 {
      assert ps[1..][|ps| - 2] == ps[|ps| - 1];
      RelinkLast(heap, heap', ps[1..], q);
    } else {
      assert ps[1..] == [];
    }
  }

  lemma AddrsThree(a: seq<Tree>, b: seq<Tree>, c: seq<Tree>)
    ensures PtrsAll(a + b + c) == PtrsAll(a) + PtrsAll(b) + PtrsAll(c)
    ensures DistinctAll(a + b + c) <==>
            DistinctAll(a) && DistinctAll(b) && DistinctAll(c) && PtrsAll(a) !! PtrsAll(b) !! PtrsAll(c)
    ensures LeavesAll(a + b + c) == LeavesAll(a) + LeavesAll(b) + LeavesAll(c)
    ensures FlatAll(a + b + c) == FlatAll(a) + FlatAll(b) + FlatAll(c)
  {
    AddrsAppend(a + b, c);
    AddrsAppend(a, b);
    LeavesAllAppend(a + b, c);
    LeavesAllAppend(a, b);
    FlatAllAppend(a + b, c);
    FlatAllAppend(a, b);
  }

  lemma SingleTree(t: Tree)
    ensures PtrsAll([t]) == Ptrs(t) && (DistinctAll([t]) <==> Distinct(t)) && LeavesAll([t]) == Leaves(t) && FlatAll([t]) == Flat(t)
  {
    assert [t][1..] == [];
  }

  lemma StillMatches(heap: Heap, q: nat, n: BNode, t: Tree)
    requires Matches(heap, t) && q !in heap
    ensures Matches(heap[q := n], t)
  {
    MatchesPtrs(heap, t);
    MatchesFrame(heap, heap[q := n], t);
  }

  lemma AddrsUpTo(ts: seq<Tree>, i: nat)
    requires i < |ts|
    ensures PtrsAll(ts[..i + 1]) == PtrsAll(ts[..i]) + Ptrs(ts[i])
  {
    assert ts[..i + 1] == ts[..i] + [ts[i]];
    AddrsAppend(ts[..i], [ts[i]]);
    SingleTree(ts[i]);
  }

  /** A new parent over some neighbours of a level: same chain, same pairs. */
  lemma ParentAdded(heap: Heap, alloc: nat, a: seq<Tree>, ks: seq<int>, mid: seq<Tree>, c: seq<Tree>, n: BNode)
    requires LevelAt(heap, alloc, a + mid + c) && NodeImg(n, ks, Addrs(mid))
    ensures var t := Node(alloc, ks, mid);
            && LevelAt(heap[alloc := n], alloc + 1, a + [t] + c)
            && FlatAll(a + [t] + c) == FlatAll(a + mid + c)
  {
    var t, heap' := Node(alloc, ks, mid), heap[alloc := n];
    MatchesAllPtrs(heap, a + mid + c);
    AddrsThree(a, mid, c);
    AddrsThree(a, [t], c);
    SingleTree(t);
    MatchesAllFrame(heap, heap', a + mid + c);
    assert forall i :: 0 <= i < |mid| ==> mid[i] == (a + mid + c)[|a| + i];
    NodeImgAt(heap', alloc, ks, mid);
    NodeMatches(heap', alloc, ks, mid);
    MatchesAround(heap', a, mid, c, t);
    LeavesAllInPtrs(a + mid + c);
    LinkedFrame(heap, heap', LeavesAll(a + mid + c), 0);
  }

  lemma ParentUntouched(heap0: Heap, alloc0: nat, heap: Heap, alloc: nat, a: seq<Tree>, ks: seq<int>, mid: seq<Tree>, c: seq<Tree>, n: BNode)
    requires Untouched(heap0, alloc0, heap, alloc, a + mid + c) && Fresh(heap, alloc)
    ensures Untouched(heap0, alloc0, heap[alloc := n], alloc + 1, a + [Node(alloc, ks, mid)] + c)
  {
    AddrsThree(a, mid, c);
    AddrsThree(a, [Node(alloc, ks, mid)], c);
    SingleTree(Node(alloc, ks, mid));
  }

  lemma MatchesAround(heap: Heap, a: seq<Tree>, mid: seq<Tree>, c: seq<Tree>, t: Tree)
    requires MatchesAll(heap, a + mid + c) && Matches(heap, t)
    ensures MatchesAll(heap, a + [t] + c)
  {
    var s, u := a + mid + c, a + [t] + c;
    forall i | 0 <= i < |u| ensures Matches(heap, u[i]) {
      if i < |a| { assert u[i] == s[i]; }
      if i > |a| { assert u[i] == s[i - 1 + |mid|]; }
    }
  }

  /** A finished level: trees over adjoining key ranges, chained, in new memory. */
  ghost predicate Level(heap0: Heap, alloc0: nat, heap: Heap, alloc: nat, ts: seq<Tree>, F: seq<int>, h: nat, m: nat) {
    && h > 0 && ts != [] && Forest(ts, F, h, m) && LevelAt(heap, alloc, ts) && Untouched(heap0, alloc0, heap, alloc, ts)
  }

  ghost function Group(q: nat, ts: seq<Tree>, F: seq<int>, start: nat, c: nat): Tree
    requires 0 < c && start + c <= |ts| < |F|
  {
    Node(q, F[start + 1..start + c], ts[start..start + c])
  }

  /** A level in transition: parents over the first `start` trees, then the rest. */
  ghost predicate Rising(heap0: Heap, alloc0: nat, heap: Heap, alloc: nat, ps: seq<Tree>, G: seq<int>, ts: seq<Tree>, F: seq<int>, h: nat, m: nat, start: nat) {
    && h > 0 && Forest(ts, F, h, m) && start <= |ts|
    && (start == 0 ==> ps == []) && (start > 0 ==> 0 < |ps| < start)
    && Forest(ps, G, h + 1, m) && G[0] == F[0] && G[|ps|] == F[start]
    && var us := ps + ts[start..];
    && LevelAt(heap, alloc, us) && Untouched(heap0, alloc0, heap, alloc, us) && FlatAll(us) == FlatAll(ts)
  }

  lemma RisingStart(heap0: Heap, alloc0: nat, heap: Heap, alloc: nat, ts: seq<Tree>, F: seq<int>, h: nat, m: nat)
    requires Level(heap0, alloc0, heap, alloc, ts, F, h, m)
    ensures Rising(heap0, alloc0, heap, alloc, [], [F[0]], ts, F, h, m, 0) == true
  {
    assert [] + ts[0..] == ts;
  }

  lemma RisingMid(heap0: Heap, alloc0: nat, heap: Heap, alloc: nat, ps: seq<Tree>, G: seq<int>, ts: seq<Tree>, F: seq<int>, h: nat, m: nat, start: nat, c: nat)
    requires Rising(heap0, alloc0, heap, alloc, ps, G, ts, F, h, m, start) && start + c <= |ts|
    ensures Fresh(heap, alloc) && Forest(ts, F, h, m) && MatchesAll(heap, ts[start..start + c])
  {
    var us, mid := ps + ts[start..], ts[start..start + c];
    assert forall i :: 0 <= i < |mid| ==> mid[i] == us[|ps| + i];
  }

  lemma RisingStep(heap0: Heap, alloc0: nat, heap: Heap, alloc: nat, ps: seq<Tree>, G: seq<int>, ts: seq<Tree>, F: seq<int>, h: nat, m: nat, start: nat, c: nat, n: BNode, end: nat)
    requires Rising(heap0, alloc0, heap, alloc, ps, G, ts, F, h, m, start) == true && 0 < c <= m && start + c == end <= |ts| && (start == 0 ==> c > 1)
    requires NodeImg(n, F[start + 1..start + c], Addrs(ts[start..start + c])) == true
    ensures var t := Group(alloc, ts, F, start, c);
            && Addrs(ps + [t]) == Addrs(ps) + [alloc]
            && Rising(heap0, alloc0, heap[alloc := n], alloc + 1, ps + [t], G + [F[end]], ts, F, h, m, end) == true
  {
    var mid, rest, ks := ts[start..start + c], ts[start + c..], F[start + 1..start + c];
    assert ps + ts[start..] == ps + mid + rest;
    GroupAppend(ts, F, h, m, ps, G, start, c, alloc);
    ParentAdded(heap, alloc, ps, ks, mid, rest, n);
    ParentUntouched(heap0, alloc0, heap, alloc, ps, ks, mid, rest, n);
  }

  lemma RisingEnd(heap0: Heap, alloc0: nat, heap: Heap, alloc: nat, ps: seq<Tree>, G: seq<int>, ts: seq<Tree>, F: seq<int>, h: nat, m: nat)
    requires |ts| > 1 && Rising(heap0, alloc0, heap, alloc, ps, G, ts, F, h, m, |ts|) == true
    ensures Level(heap0, alloc0, heap, alloc, ps, G, h + 1, m) == true
    ensures 0 < |ps| < |ts| && G[0] == F[0] && G[|ps|] == F[|ts|] && FlatAll(ps) == FlatAll(ts)
  {
    assert ps + ts[|ts|..] == ps;
  }

  /** A level of one tree is the finished tree. */
  lemma LastLevel(heap0: Heap, alloc0: nat, heap: Heap, alloc: nat, ts: seq<Tree>, F: seq<int>, h: nat, m: nat)
    requires |ts| == 1 && Level(heap0, alloc0, heap, alloc, ts, F, h, m)
    ensures ts == [ts[0]] && TreeAt(heap, alloc, ts[0], h, F[0], F[1], m) && Flat(ts[0]) == FlatAll(ts)
    ensures Untouched(heap0, alloc0, heap, alloc, [ts[0]])
  {
    assert ts == [ts[0]];
    SingleTree(ts[0]);
    assert Matches(heap, ts[0]) && WF(ts[0], h, F[0], F[1], m);
  }

  /** The leaf level in the making, over the first `start` pairs. */
  ghost predicate Leafing(heap0: Heap, alloc0: nat, heap: Heap, alloc: nat, pairs: Pairs, ts: seq<Tree>, F: seq<int>, lo: int, hi: int, m: nat, start: nat) {
    && start <= |pairs| && (start == 0 <==> ts == []) && AllLeaves(ts)
    && Forest(ts, F, 1, m) && F[0] == lo && F[|ts|] == BoundAt(pairs, lo, hi, start)
    && FlatAll(ts) == pairs[..start]
    && LevelAt(heap, alloc, ts) && Untouched(heap0, alloc0, heap, alloc, ts)
  }

  lemma LeafingStep(heap0: Heap, alloc0: nat, heap: Heap, alloc: nat, pairs: Pairs, ts: seq<Tree>, F: seq<int>, lo: int, hi: int, m: nat, start: nat, n: nat, leaf: BNode)
    requires Leafing(heap0, alloc0, heap, alloc, pairs, ts, F, lo, hi, m, start) && Fresh(heap0, alloc0)
    requires SortedPairs(pairs) && PairsWithin(pairs, lo, hi) && 0 < n < m && start + n <= |pairs|
    requires leaf.next == 0 && LeafImg(leaf, KeysOf(pairs[start..start + n]), ValsOf(pairs[start..start + n]))
    ensures var t := LeafOf(alloc, pairs[start..start + n]);
            && Addrs(ts + [t]) == Addrs(ts) + [alloc] && (ts != [] ==> ts[|ts| - 1].ptr in heap)
            && Leafing(heap0, alloc0, HangLeaf(heap, ts, alloc, leaf), alloc + 1, pairs, ts + [t], F + [BoundAt(pairs, lo, hi, start + n)], lo, hi, m, start + n) == true
  {
    var t := LeafOf(alloc, pairs[start..start + n]);
    LeafAppended(pairs, ts, F, lo, hi, m, start, n, alloc);
    LevelGrown(heap, alloc, ts, t, leaf);
    GrownUntouched(heap0, alloc0, heap, alloc, ts, t, leaf, HangLeaf(heap, ts, alloc, leaf));
    AddrsOfAppend(ts, [t]);
  }

  lemma LeafingEnd(heap0: Heap, alloc0: nat, heap: Heap, alloc: nat, pairs: Pairs, ts: seq<Tree>, F: seq<int>, lo: int, hi: int, m: nat)
    requires pairs != [] && Leafing(heap0, alloc0, heap, alloc, pairs, ts, F, lo, hi, m, |pairs|)
    ensures Level(heap0, alloc0, heap, alloc, ts, F, 1, m)
    ensures F[0] == lo && F[|ts|] == hi && FlatAll(ts) == pairs
  {
    assert pairs[..|pairs|] == pairs;
  }

  /** Memory after a key is taken out of its leaf. */
  lemma RemovedAt(heap: Heap, alloc: nat, t: Tree, h: nat, lo: int, hi: int, m: nat, k: int, i: nat)
    requires TreeAt(heap, alloc, t, h, lo, hi, m) && lo <= k < hi
    requires var leaf := LeafFor(t, h, lo, hi, m, k);
             Matches(heap, leaf) && i == LowerBound(leaf.keys, k) && i < |leaf.keys| && leaf.keys[i] == k
    ensures var leaf := LeafFor(t, h, lo, hi, m, k);
            var u := Delete(t, h, lo, hi, m, k);
            && TreeAt(heap[leaf.ptr := RemovePair(heap[leaf.ptr], i)], alloc, u, h, lo, hi, m) == true
            && u.ptr == t.ptr && Flat(u) == Drop(Flat(t), k)
  {
    var leaf := LeafFor(t, h, lo, hi, m, k);
    var n := RemovePair(heap[leaf.ptr], i);
    RemovePairImg(heap[leaf.ptr], leaf.keys, leaf.vals, i);
    DeleteRefines(t, h, lo, hi, m, k);
    DeleteInMemory(heap, t, h, lo, hi, m, k, leaf.ptr, n);
    LeavesInPtrs(t);
    MatchesPtrs(heap, t);
    LinkedFrame(heap, heap[leaf.ptr := n], Leaves(t), 0);
  }

  // ------------------------------------------------------------------ new roots

  lemma RootWF(q: nat, l: Tree, s: int, r: Tree, h: nat, lo: int, hi: int, m: nat)
    requires m >= 4 && lo < s < hi && WF(l, h, lo, s, m) && WF(r, h, s, hi, m) && h > 0
    ensures var t := Node(q, [s], [l, r]);
            WF(t, h + 1, lo, hi, m) && Flat(t) == Flat(l) + Flat(r) && Leaves(t) == Leaves(l) + Leaves(r)
  {
    assert [l, r][1..] == [r];
    assert FlatAll([r]) == Flat(r) + FlatAll([]) && LeavesAll([r]) == Leaves(r) + LeavesAll([]);
    var t := Node(q, [s], [l, r]);
    forall i | 0 <= i < |t.kids| ensures WF(t.kids[i], h, Lo(t.keys, i, lo), Hi(t.keys, i, hi), m) {
    }
  }

  function RootNode(l: nat, s: int, r: nat): BNode {
    var n := NewNode(false);
    n.(keys := n.keys[0 := s], kids := n.kids[0 := l][1 := r], cnt := 1)
  }

  lemma NewRoot(heap: Heap, q: nat, l: Tree, s: int, r: Tree, h: nat, lo: int, hi: int, m: nat)
    requires m >= 4 && lo < s < hi && WF(l, h, lo, s, m) && WF(r, h, s, hi, m) && h > 0 && Fresh(heap, q)
    requires Matches(heap, l) && Matches(heap, r) && Distinct(l) && Distinct(r) && Ptrs(l) !! Ptrs(r)
    requires Linked(heap, Leaves(l) + Leaves(r), 0)
    ensures TreeAt(heap[q := RootNode(l.ptr, s, r.ptr)], q + 1, Node(q, [s], [l, r]), h + 1, lo, hi, m)
    ensures Flat(Node(q, [s], [l, r])) == Flat(l) + Flat(r)
  {
    RootWF(q, l, s, r, h, lo, hi, m);
    RootInMemory(heap, q, l, s, r, 0);
  }

  lemma RootInMemory(heap: Heap, q: nat, l: Tree, s: int, r: Tree, tail: nat)
    requires q !in heap && q != 0 && Matches(heap, l) && Matches(heap, r) && Distinct(l) && Distinct(r) && Ptrs(l) !! Ptrs(r)
    requires Linked(heap, Leaves(l) + Leaves(r), tail)
    ensures var t := Node(q, [s], [l, r]);
            var heap' := heap[q := RootNode(l.ptr, s, r.ptr)];
            Matches(heap', t) && Distinct(t) && Linked(heap', Leaves(l) + Leaves(r), tail)
  {
    var heap' := heap[q := RootNode(l.ptr, s, r.ptr)];
    MatchesPtrs(heap, l);
    MatchesPtrs(heap, r);
    MatchesFrame(heap, heap', l);
    MatchesFrame(heap, heap', r);
    AddrsPair(l, r);
    LeavesInPtrs(l);
    LeavesInPtrs(r);
    LinkedFrame(heap, heap', Leaves(l) + Leaves(r), tail);
    assert heap'[q].keys[..1] == [s];
  }

  class BPlusTree {
    var heap: Heap
    var root: nat
    var order: nat
    var alloc: nat
    const keyMin: int   // keys range over [keyMin, keyEnd): the values of a C long
    const keyEnd: int
    ghost var shape: Tree
    ghost var height: nat
    ghost var bound: nat   // the order the nodes were made for

    /** Searches and deletes never look at the order, so they need only this. */
    ghost predicate Valid()
      reads this
    {
      ValidOrder(order) && root == shape.ptr && TreeAt(heap, alloc, shape, height, keyMin, keyEnd, bound)
    }

    /** Every node has fewer keys than the order: what an insert relies on, and what a
        rejected bulk build with a smaller order takes away. */
    ghost predicate Roomy()
      reads this
    {
      NodesBelow(shape, order)
    }

    /** The nodes were made for this order, or a smaller one. */
    lemma MadeForOrder()
      requires Valid() && bound <= order
      ensures Roomy()
    {
      OrderChange(shape, height, keyMin, keyEnd, bound, bound);
      NodesBelowMore(shape, bound, order);
    }

    /** The abstract value: the stored pairs in key order. */
    ghost function Contents(): Pairs
      reads this
    {
      Flat(shape)
    }

    ghost function Map(): map<int, int>
      reads this
    {
      ToMap(Contents())
    }

    /** bptree_create_with_order. */
    constructor (keyMin: int, keyEnd: int, wanted: int)
      requires keyMin < keyEnd
      ensures Valid() && Contents() == [] && order == bound == NormalizeOrder(wanted) && Filled(shape, order, true)
      ensures this.keyMin == keyMin && this.keyEnd == keyEnd
    {
      this.keyMin, this.keyEnd := keyMin, keyEnd;
      order := NormalizeOrder(wanted);
      heap, root, alloc := map[1 := NewNode(true)], 1, 2;
      shape, height, bound := Leaf(1, [], []), 1, order;
      new;
      assert Linked(heap, [1], 0) by { assert [1][1..] == []; }
    }

    /** calloc of one node. */
    method Allocate(isLeaf: bool) returns (p: nat)
      requires Fresh(heap, alloc)
      modifies this`heap, this`alloc
      ensures p == old(alloc) && alloc == old(alloc) + 1
      ensures heap == old(heap)[p := NewNode(isLeaf)]
      ensures Fresh(heap, alloc)
    {
      p := alloc;
      alloc := alloc + 1;
      heap := heap[p := NewNode(isLeaf)];
    }

    /** A full leaf takes the pair at i and hands its upper part to a new leaf. */
    method CutLeaf(p: nat, i: nat, key: int, row: int) returns (sep: int, child: nat)
      requires 8 <= order <= 32 && Fresh(heap, alloc) && p in heap && Sized(heap[p]) && i <= heap[p].cnt == order - 1
      modifies this`heap, this`alloc
      ensures heap == SplitLeafHeap(old(heap), p, i, key, row, (order - 1) / 2, old(alloc))
      ensures alloc == old(alloc) + 1 && child == old(alloc) && sep == heap[child].keys[0]
    {
      child := Allocate(true);
      var n := AddPair(heap[p], i, key, row);
      heap := heap[p := n];
      var c := (order - 1) / 2;
      heap := heap[child := TakeTail(NewNode(true), n, c)];
      heap := heap[p := n.(cnt := c, next := child)];
      sep := heap[child].keys[0];
    }

    method SplitLeaf(p: nat, i: nat, key: int, row: int, ghost keys: seq<int>, ghost vals: seq<int>, ghost tail: nat)
      returns (sep: int, child: nat)
      requires LeafReady(heap, alloc, p, keys, vals, order, tail) && |keys| == order - 1 && Absent(keys, key)
      requires i == LowerBound(keys, key)
      modifies this`heap, this`alloc
      ensures Outcome(old(heap), old(alloc), heap, alloc, {p}, LeafIns(p, keys, vals, order, key, row, old(alloc)), 1, tail, 2, sep, child) == true
    {
      SplitLeafOutcome(heap, alloc, p, keys, vals, order, key, row, tail);
      sep, child := CutLeaf(p, i, key, row);
    }

    /** A leaf with room takes the pair at i. */
    method AddToLeaf(p: nat, i: nat, key: int, row: int, ghost keys: seq<int>, ghost vals: seq<int>, ghost tail: nat)
      requires LeafReady(heap, alloc, p, keys, vals, order, tail) && |keys| < order - 1 && Absent(keys, key)
      requires i == LowerBound(keys, key)
      modifies this`heap
      ensures Outcome(old(heap), alloc, heap, alloc, {p}, LeafIns(p, keys, vals, order, key, row, alloc), 1, tail, 1, 0, 0) == true
    {
      AddPairOutcome(heap, alloc, p, keys, vals, order, key, row, tail, 0, 0);
      heap := heap[p := AddPair(heap[p], i, key, row)];
    }

    method InsertLeaf(p: nat, key: int, row: int, ghost keys: seq<int>, ghost vals: seq<int>, ghost tail: nat)
      returns (res: int, sep: int, child: nat)
      requires LeafReady(heap, alloc, p, keys, vals, order, tail)
      modifies this`heap, this`alloc
      ensures Outcome(old(heap), old(alloc), heap, alloc, {p}, LeafIns(p, keys, vals, order, key, row, old(alloc)), 1, tail, res, sep, child) == true
    {
      res, sep, child := 0, 0, 0;
      var n := heap[p];
      var i := FindLower(n.keys, n.cnt, key);
      assert i == LowerBound(keys, key) && (Absent(keys, key) <==> !(i < n.cnt && n.keys[i] == key));
      if i < n.cnt && n.keys[i] == key {
        DupOutcome(heap, alloc, p, keys, vals, order, key, row, tail, sep, child);
      } else if n.cnt == order - 1 {
        sep, child := SplitLeaf(p, i, key, row, keys, vals, tail);
        res := 2;
      } else {
        AddToLeaf(p, i, key, row, keys, vals, tail);
        res := 1;
      }
    }

    /** Store a separator and child after i, splitting the node if it is over-full. */
    method GrowNode(p: nat, i: nat, sep: int, child: nat) returns (res: int, sep': int, child': nat)
      requires 8 <= order <= 32 && Fresh(heap, alloc) && p in heap && Sized(heap[p]) && i <= heap[p].cnt < order
      modifies this`heap, this`alloc
      ensures var n := AddChild(old(heap)[p], i, sep, child);
              && heap == StoreNode(old(heap), p, n, order, old(alloc))
              && (n.cnt < order ==> alloc == old(alloc) && res == 1 && sep' == 0 && child' == 0)
              && (n.cnt >= order ==> alloc == old(alloc) + 1 && res == 2 && sep' == n.keys[n.cnt / 2] && child' == old(alloc))
    {
      res, sep', child' := 1, 0, 0;
      var full := heap[p].cnt == order - 1;
      if full {
        child' := Allocate(false);
      }
      heap := heap[p := AddChild(heap[p], i, sep, child)];
      if full {
        var n := heap[p];
        var split := n.cnt / 2;
        sep' := n.keys[split];
        heap := heap[child' := TakeKids(heap[child'], n, split)];
        heap := heap[p := n.(cnt := split)];
        res := 2;
      }
    }

    method Absorb(p: nat, i: nat, sep: int, child: nat, ghost keys: seq<int>, ghost kids: seq<Tree>, ghost l: Tree, ghost r: Tree, ghost tail: nat)
      returns (res: int, sep': int, child': nat)
      requires 8 <= order <= 32 && i < |kids| && |keys| < order && NodeAt(heap, p, keys, kids)
      requires l.ptr == kids[i].ptr && r.ptr == child && NodeReady(heap, alloc, p, kids[..i] + [l, r] + kids[i + 1..], tail) == true
      modifies this`heap, this`alloc
      ensures Outcome(old(heap), old(alloc), heap, alloc, {p}, NodeIns(p, keys, kids, order, i, Two(l, sep, r), old(alloc)), 1, tail, res, sep', child') == true
    {
      ghost var ks, cs := keys[..i] + [sep] + keys[i..], kids[..i] + [l, r] + kids[i + 1..];
      GrownImg(heap, p, keys, kids, i, l, sep, r);
      StoreOutcome(heap, alloc, p, AddChild(heap[p], i, sep, child), ks, cs, order, tail);
      res, sep', child' := GrowNode(p, i, sep, child);
    }

    /** insert_recursive. */
    method InsertRec(p: nat, key: int, row: int, ghost t: Tree, ghost h: nat, ghost lo: int, ghost hi: int, ghost tail: nat)
      returns (res: int, sep: int, child: nat)
      requires Ready(heap, alloc, t, h, lo, hi, order, tail) && t.ptr == p && lo <= key < hi
      modifies this`heap, this`alloc
      ensures Outcome(old(heap), old(alloc), heap, alloc, Ptrs(t), Insert(t, h, lo, hi, order, key, row, old(alloc)), h, tail, res, sep, child) == true
      decreases h
    {
      var n := heap[p];
      if n.isLeaf {
        ReadyLeaf(heap, alloc, t, h, lo, hi, order, tail);
        assert Ptrs(t) == {p};
        res, sep, child := InsertLeaf(p, key, row, t.keys, t.vals, tail);
        return;
      }
      var i := FindUpper(n.keys, n.cnt, key);
      ReadyChild(heap, alloc, t, h, lo, hi, order, tail, i);
      res, sep, child := InsertRec(n.kids[i], key, row, t.kids[i], h - 1, Lo(t.keys, i, lo), Hi(t.keys, i, hi), Head(LeavesAll(t.kids[i + 1..]), tail));
      res, sep, child := AfterChild(p, i, res, sep, child, key, row, t, h, lo, hi, tail, old(heap), old(alloc));
    }

    method AfterChild(p: nat, i: nat, res: int, sep: int, child: nat, ghost key: int, ghost row: int, ghost t: Tree, ghost h: nat, ghost lo: int, ghost hi: int, ghost tail: nat, ghost heap0: Heap, ghost alloc0: nat)
      returns (res': int, sep': int, child': nat)
      requires Ready(heap0, alloc0, t, h, lo, hi, order, tail) && t.Node? && t.ptr == p && lo <= key < hi
      requires i == UpperBound(t.keys, key)
      requires var sub := Insert(t.kids[i], h - 1, Lo(t.keys, i, lo), Hi(t.keys, i, hi), order, key, row, alloc0);
               Outcome(heap0, alloc0, heap, alloc, Ptrs(t.kids[i]), sub, h - 1, Head(LeavesAll(t.kids[i + 1..]), tail), res, sep, child)
      modifies this`heap, this`alloc
      ensures Outcome(heap0, alloc0, heap, alloc, Ptrs(t), Insert(t, h, lo, hi, order, key, row, alloc0), h, tail, res', sep', child') == true
    {
      ghost var sub := Insert(t.kids[i], h - 1, Lo(t.keys, i, lo), Hi(t.keys, i, hi), order, key, row, alloc0);
      ChildPlaced(heap0, alloc0, heap, alloc, t, h, lo, hi, order, tail, i, key, row, res, sep, child);
      res', sep', child' := res, sep, child;
      if res == 2 {
        res', sep', child' := AfterSplit(p, i, sep, child, t, h, lo, hi, tail, heap0, alloc0, sub);
      } else if res == 1 {
        ReplacedDone(heap0, alloc0, heap, alloc, t, h, lo, hi, order, tail, i, sub.t, sep, child);
      }
    }

    method AfterSplit(p: nat, i: nat, sep: int, child: nat, ghost t: Tree, ghost h: nat, ghost lo: int, ghost hi: int, ghost tail: nat, ghost heap0: Heap, ghost alloc0: nat, ghost sub: Ins)
      returns (res': int, sep': int, child': nat)
      requires ChildDone(heap0, alloc0, heap, alloc, t, h, lo, hi, order, tail, i, sub, 2, sep, child) == true && t.ptr == p
      modifies this`heap, this`alloc
      ensures Outcome(heap0, alloc0, heap, alloc, Ptrs(t), NodeIns(p, t.keys, t.kids, order, i, sub, alloc0 + h - 1), h, tail, res', sep', child') == true
    {
      ghost var heap1 := heap;
      SplitChild(heap0, alloc0, heap, alloc, t, h, lo, hi, order, tail, i, sub, sep, child);
      assert alloc == alloc0 + h - 1;
      ghost var r := NodeIns(p, t.keys, t.kids, order, i, sub, alloc);
      res', sep', child' := Absorb(p, i, sep, child, t.keys, t.kids, sub.l, sub.r, tail);
      AbsorbedDone(heap0, alloc0, heap1, alloc0 + h - 1, heap, alloc, t, h, tail, Ptrs(t.kids[i]), r, res', sep', child');
    }

    /** The descent shared by search, range scan and delete. */
    method Descend(key: int) returns (node: nat)
      requires Valid() && keyMin <= key < keyEnd
      ensures node == LeafFor(shape, height, keyMin, keyEnd, bound, key).ptr
    {
      node := root;
      ghost var t, h, lo, hi := shape, height, keyMin, keyEnd;
      while !heap[node].isLeaf
        invariant node == t.ptr && WF(t, h, lo, hi, bound) && Matches(heap, t)
        invariant LeafFor(t, h, lo, hi, bound, key) == LeafFor(shape, height, keyMin, keyEnd, bound, key)
        decreases h
      {
        var n := heap[node];
        var i := FindUpper(n.keys, n.cnt, key);
        node := n.kids[i];
        t, h, lo, hi := t.kids[i], h - 1, Lo(t.keys, i, lo), Hi(t.keys, i, hi);
      }
    }

    /** bptree_search agrees with the abstract map, whatever operations built the tree. */
    method Search(key: int) returns (found: bool, row: int)
      requires Valid() && keyMin <= key < keyEnd
      ensures found <==> key in Map()
      ensures found ==> row == Map()[key]
    {
      var node := Descend(key);
      ghost var leaf := LeafFor(shape, height, keyMin, keyEnd, bound, key);
      LeafForMatches(heap, shape, height, keyMin, keyEnd, bound, key);
      LeafLookup(leaf.keys, leaf.vals, key);
      var n := heap[node];
      var i := FindLower(n.keys, n.cnt, key);
      assert n.keys[..n.cnt] == leaf.keys && n.vals[..n.cnt] == leaf.vals;
      found, row := false, 0;
      if i < n.cnt && n.keys[i] == key {
        found, row := true, n.vals[i];
        assert row == n.vals[..n.cnt][i];
      }
    }

    /** bptree_delete. */
    method DeleteKey(key: int) returns (found: bool)
      requires Valid() && keyMin <= key < keyEnd
      modifies this
      ensures Valid() && order == old(order) && bound == old(bound) && (old(Roomy()) ==> Roomy())
      ensures found <==> key in old(Map())
      ensures Contents() == Drop(old(Contents()), key) && Map() == old(Map()) - {key}
    {
      var node := Descend(key);
      ghost var leaf := LeafFor(shape, height, keyMin, keyEnd, bound, key);
      LeafForMatches(heap, shape, height, keyMin, keyEnd, bound, key);
      LeafLookup(leaf.keys, leaf.vals, key);
      DropIsMapRemove(Contents(), key);
      var n := heap[node];
      var i := FindLower(n.keys, n.cnt, key);
      assert n.keys[..n.cnt] == leaf.keys && n.vals[..n.cnt] == leaf.vals;
      found := i < n.cnt && n.keys[i] == key;
      if found {
        RemoveAt(node, i, key);
      } else {
        ToMapKeys(Contents());
        DropAbsent(Contents(), key);
      }
    }

    method RemoveAt(node: nat, i: nat, ghost key: int)
      requires Valid() && keyMin <= key < keyEnd
      requires var leaf := LeafFor(shape, height, keyMin, keyEnd, bound, key);
               && node == leaf.ptr && Matches(heap, leaf) && Sorted(leaf.keys) && |leaf.keys| == |leaf.vals|
               && i == LowerBound(leaf.keys, key) && i < |leaf.keys| && leaf.keys[i] == key
      modifies this
      ensures Valid() && order == old(order) && bound == old(bound) && (old(Roomy()) ==> Roomy())
      ensures Contents() == Drop(old(Contents()), key)
    {
      RemovedAt(heap, alloc, shape, height, keyMin, keyEnd, bound, key, i);
      heap := heap[node := RemovePair(heap[node], i)];
      DeleteRoomy(shape, height, keyMin, keyEnd, bound, key, order);
      shape := Delete(shape, height, keyMin, keyEnd, bound, key);
    }

    /** bptree_range_search: the visitor is shown the pairs of [start, end] in
        ascending order, once each, until it declines. */
    method RangeSearch(start: int, end: int, visitor: Pairs -> bool) returns (visited: Pairs, ok: bool)
      requires Valid() && keyMin <= start < keyEnd
      ensures (visited, ok) == Visits(Range(Contents(), start, end), [], visitor)
    {
      visited, ok := [], true;
      if start > end {
        RangeOutside(Contents(), start, end);
        return;
      }
      var node := Descend(start);
      ghost var leaves := ScanStart(heap, shape, height, keyMin, keyEnd, bound, start, end);
      visited, ok := ScanLeaves(node, leaves, start, end, visitor);
    }

    /** Walk the leaf chain from a node on. */
    method ScanLeaves(first: nat, ghost leaves: seq<Tree>, start: int, end: int, visitor: Pairs -> bool) returns (visited: Pairs, ok: bool)
      requires Chain(heap, leaves) && first == Head(Addrs(leaves), 0) && start <= end
      ensures (visited, ok) == Visits(Range(FlatAll(leaves), start, end), [], visitor)
    {
      visited, ok := [], true;
      var node := first;
      ghost var rest := leaves;
      while node != 0
        invariant ok && Chain(heap, rest) && node == Head(Addrs(rest), 0)
        invariant Visits(Range(FlatAll(leaves), start, end), [], visitor) == Visits(Range(FlatAll(rest), start, end), visited, visitor)
        decreases |rest|
      {
        ChainStep(heap, rest);
        var stop;
        visited, ok, stop := ScanLeaf(node, rest[0], FlatAll(rest[1..]), start, end, visitor, visited);
        if stop {
          return;
        }
        node := heap[node].next;
        rest := rest[1..];
      }
      ChainEnd(heap, rest);
    }

    /** The inner loop of a range scan, over one leaf. */
    method ScanLeaf(node: nat, ghost leaf: Tree, ghost rest: Pairs, start: int, end: int, visitor: Pairs -> bool, seen: Pairs)
      returns (visited: Pairs, ok: bool, stop: bool)
      requires leaf.Leaf? && leaf.ptr == node && Matches(heap, leaf) && |leaf.keys| == |leaf.vals|
      requires start <= end && SortedPairs(Flat(leaf) + rest)
      ensures stop ==> (visited, ok) == Visits(Range(Flat(leaf) + rest, start, end), seen, visitor)
      ensures !stop ==> ok && Visits(Range(Flat(leaf) + rest, start, end), seen, visitor) == Visits(Range(rest, start, end), visited, visitor)
    {
      visited, ok, stop := seen, true, false;
      var n := heap[node];
      ghost var z := Flat(leaf);
      assert n.keys[..n.cnt] == leaf.keys && n.vals[..n.cnt] == leaf.vals;
      var i := 0;
      assert z[0..] == z;
      while i < n.cnt
        invariant 0 <= i <= n.cnt == |z|
        invariant Visits(Range(z + rest, start, end), seen, visitor) == Visits(Range(z[i..] + rest, start, end), visited, visitor)
      {
        assert (n.keys[i], n.vals[i]) == z[i];
        ScanStep(z, i, rest, start, end);
        if n.keys[i] < start {
          i := i + 1;
          continue;
        }
        if n.keys[i] > end {
          assert forall q :: 0 <= q < |z[i..] + rest| ==> (z[i..] + rest)[q] == (z + rest)[i + q];
          RangeOutside(z[i..] + rest, start, end);
          stop := true;
          return;
        }
        visited := visited + [(n.keys[i], n.vals[i])];
        assert Range(z[i..] + rest, start, end)[1..] == Range(z[i + 1..] + rest, start, end);
        if !visitor(visited) {
          ok, stop := false, true;
          return;
        }
        i := i + 1;
      }
      assert z[i..] + rest == rest;
    }

    /** bptree_insert: 1 when the pair was added, 0 exactly when the key was there. */
    method InsertPair(key: int, row: int) returns (res: int)
      requires Valid() && Roomy() && order <= 32 && keyMin <= key < keyEnd
      modifies this
      ensures Valid() && Roomy() && order == old(order) == bound
      ensures res == if key in old(Map()) then 0 else 1
      ensures res == 0 ==> Contents() == old(Contents())
      ensures res == 1 ==> Contents() == Put(old(Contents()), key, row) && Map() == old(Map())[key := row]
      ensures old(Filled(shape, order, true)) ==> Filled(shape, order, true)
    {
      ghost var t, alloc0, heap0 := shape, alloc, heap;
      OrderChange(shape, height, keyMin, keyEnd, bound, order);
      bound := order;
      InsertFacts(heap, alloc, shape, height, keyMin, keyEnd, order, key, row);
      var code, sep, child := InsertRec(root, key, row, shape, height, keyMin, keyEnd, 0);
      res := Settle(code, sep, child, Insert(t, height, keyMin, keyEnd, order, key, row, alloc0), heap0, alloc0, key, row);
      MadeForOrder();
    }

    /** What bptree_insert does with the outcome at the root. */
    method Settle(code: int, sep: int, child: nat, ghost r: Ins, ghost heap0: Heap, ghost alloc0: nat, ghost key: int, ghost row: int) returns (res: int)
      requires ValidOrder(order) && bound == order && root == shape.ptr && TreeAt(heap0, alloc0, shape, height, keyMin, keyEnd, order)
      requires Outcome(heap0, alloc0, heap, alloc, Ptrs(shape), r, height, 0, code, sep, child)
      requires InsertOk(Contents(), height, keyMin, keyEnd, order, key, row, r)
      requires Leaves(shape) != [] && Placed(Ptrs(shape), shape.ptr, Leaves(shape)[0], r, alloc0, height - 1)
      modifies this
      ensures Valid() && order == old(order) == bound
      ensures res == if r.Dup? then 0 else 1
      ensures Contents() == if r.Dup? then old(Contents()) else Put(old(Contents()), key, row)
      ensures old(Filled(shape, order, true)) && InsFilled(r, order, true) ==> Filled(shape, order, true)
    {
      if code == 2 {
        GrowRoot(sep, child, r.l, r.r);
        res := 1;
        return;
      }
      if code == 1 {
        shape := r.t;
      }
      res := code;
    }

    /** A split root gets a new root above its two halves. */
    method GrowRoot(sep: int, child: nat, ghost l: Tree, ghost r: Tree)
      requires ValidOrder(order) && bound == order && keyMin < sep < keyEnd && root == l.ptr && child == r.ptr && height > 0 && Fresh(heap, alloc)
      requires WF(l, height, keyMin, sep, order) && WF(r, height, sep, keyEnd, order)
      requires Matches(heap, l) && Matches(heap, r) && Distinct(l) && Distinct(r) && Ptrs(l) !! Ptrs(r)
      requires Linked(heap, Leaves(l) + Leaves(r), 0)
      modifies this
      ensures Valid() && order == old(order) == bound
      ensures shape == Node(root, [sep], [l, r]) && Contents() == Flat(l) + Flat(r)
    {
      NewRoot(heap, alloc, l, sep, r, height, keyMin, keyEnd, order);
      var newRoot := Allocate(false);
      heap := heap[newRoot := RootNode(root, sep, child)];
      assert heap == old(heap)[newRoot := RootNode(root, sep, child)];
      root := newRoot;
      shape, height := Node(root, [sep], [l, r]), height + 1;
    }

    /** Fill a new leaf with the pairs from `start` on. */
    method MakeLeaf(pairs: Pairs, start: nat, n: nat) returns (p: nat)
      requires Fresh(heap, alloc) && start + n <= |pairs| && n < MAX_ORDER
      modifies this`heap, this`alloc
      ensures p == old(alloc) && alloc == p + 1 && p in heap && heap == old(heap)[p := heap[p]]
      ensures heap[p].next == 0 && LeafImg(heap[p], KeysOf(pairs[start..start + n]), ValsOf(pairs[start..start + n]))
    {
      p := Allocate(true);
      var leaf := heap[p].(cnt := n);
      var j := 0;
      while j < n
        invariant 0 <= j <= n && Sized(leaf) && leaf.isLeaf && leaf.cnt == n && leaf.next == 0
        invariant forall i :: 0 <= i < j ==> leaf.keys[i] == pairs[start + i].0 && leaf.vals[i] == pairs[start + i].1
      {
        leaf := leaf.(keys := leaf.keys[j := pairs[start + j].0], vals := leaf.vals[j := pairs[start + j].1]);
        j := j + 1;
      }
      heap := heap[p := leaf];
      assert leaf.keys[..n] == KeysOf(pairs[start..start + n]) && leaf.vals[..n] == ValsOf(pairs[start..start + n]);
    }

    /** first_key. */
    method FirstKeyOf(p: nat, ghost t: Tree) returns (k: int)
      requires Matches(heap, t) && t.ptr == p && HasFirst(t)
      ensures k == FirstKey(t)
    {
      var node := p;
      ghost var u := t;
      while !heap[node].isLeaf
        invariant Matches(heap, u) && node == u.ptr && HasFirst(u) && FirstKey(u) == FirstKey(t)
        decreases u
      {
        node := heap[node].kids[0];
        u := u.kids[0];
      }
      k := heap[node].keys[0];
      assert k == heap[node].keys[..heap[node].cnt][0];
    }

    /** Hang c neighbours of a level under a new node. */
    method MakeParent(level: seq<nat>, start: nat, c: nat, ghost ts: seq<Tree>, ghost F: seq<int>, ghost h: nat) returns (p: nat)
      requires Fresh(heap, alloc) && 0 < c <= MAX_ORDER && start + c <= |level| && level == Addrs(ts)
      requires Forest(ts, F, h, order) && MatchesAll(heap, ts[start..start + c])
      modifies this`heap, this`alloc
      ensures p == old(alloc) && alloc == p + 1 && p in heap && heap == old(heap)[p := heap[p]]
      ensures NodeImg(heap[p], F[start + 1..start + c], Addrs(ts[start..start + c]))
    {
      ghost var heap0 := heap;
      p := Allocate(false);
      var node := heap[p].(cnt := c - 1);
      var j := 0;
      while j < c
        invariant 0 <= j <= c && Sized(node) && !node.isLeaf && node.cnt == c - 1
        invariant heap == heap0[p := NewNode(false)]
        invariant forall i :: 0 <= i < j ==> node.kids[i] == ts[start + i].ptr
        invariant alloc == p + 1
        invariant forall i :: 0 <= i < j - 1 ==> node.keys[i] == F[start + 1 + i]
      {
        var child := level[start + j];
        node := node.(kids := node.kids[j := child]);
        if j > 0 {
          ghost var t := ts[start + j];
          assert t == ts[start..start + c][j];
          StillMatches(heap0, p, NewNode(false), t);
          var k := FirstKeyOf(child, t);
          node := node.(keys := node.keys[j - 1 := k]);
        }
        j := j + 1;
      }
      heap := heap[p := node];
      assert forall i :: 0 <= i < c - 1 ==> node.keys[i] == F[start + 1..start + c][i];
      assert node.keys[..c - 1] == F[start + 1..start + c];
      assert node.kids[..c] == Addrs(ts[start..start + c]);
    }

    /** The leaf level: pairs cut into runs of order - 1, chained as they are made. */
    method BuildLeaves(pairs: Pairs) returns (level: seq<nat>, ghost ts: seq<Tree>, ghost F: seq<int>)
      requires ValidOrder(order) && Fresh(heap, alloc) && keyMin < keyEnd
      requires pairs != [] && SortedPairs(pairs) && PairsWithin(pairs, keyMin, keyEnd)
      modifies this`heap, this`alloc
      ensures Level(old(heap), old(alloc), heap, alloc, ts, F, 1, order) == true
      ensures |F| == |ts| + 1 && F[0] == keyMin && F[|ts|] == keyEnd
      ensures ts != [] && FlatAll(ts) == pairs && level == Addrs(ts)
    {
      level, ts, F := [], [], [keyMin];
      var start, count := 0, |pairs|;
      while start < count
        invariant 0 <= start <= count && level == Addrs(ts)
        invariant Leafing(old(heap), old(alloc), heap, alloc, pairs, ts, F, keyMin, keyEnd, order, start) == true
      {
        var n := if count - start > order - 1 then order - 1 else count - start;
        var p := AppendLeaf(pairs, start, n, level, ts, F, old(heap), old(alloc));
        level := level + [p];
        ts, F := ts + [LeafOf(p, pairs[start..start + n])], F + [BoundAt(pairs, keyMin, keyEnd, start + n)];
        start := start + n;
      }
      LeafingEnd(old(heap), old(alloc), heap, alloc, pairs, ts, F, keyMin, keyEnd, order);
    }

    /** One leaf more, hung at the end of the chain. */
    method AppendLeaf(pairs: Pairs, start: nat, n: nat, level: seq<nat>, ghost ts: seq<Tree>, ghost F: seq<int>, ghost heap0: Heap, ghost alloc0: nat)
      returns (p: nat)
      requires 0 < n < order <= MAX_ORDER && start + n <= |pairs| && level == Addrs(ts) && Fresh(heap0, alloc0)
      requires SortedPairs(pairs) && PairsWithin(pairs, keyMin, keyEnd)
      requires Leafing(heap0, alloc0, heap, alloc, pairs, ts, F, keyMin, keyEnd, order, start)
      modifies this`heap, this`alloc
      ensures Addrs(ts + [LeafOf(p, pairs[start..start + n])]) == Addrs(ts) + [p]
      ensures Leafing(heap0, alloc0, heap, alloc, pairs, ts + [LeafOf(p, pairs[start..start + n])],
                      F + [BoundAt(pairs, keyMin, keyEnd, start + n)], keyMin, keyEnd, order, start + n) == true
    {
      ghost var heap1 := heap;
      AddrsInHeap(heap, ts);
      p := MakeLeaf(pairs, start, n);
      LeafingStep(heap0, alloc0, heap1, p, pairs, ts, F, keyMin, keyEnd, order, start, n, heap[p]);
      ghost var leaf := heap[p];
      if level != [] {
        var last := level[|level| - 1];
        heap := heap[last := heap[last].(next := p)];
      }
      assert heap == HangLeaf(heap1, ts, p, leaf);
    }

    /** One parent over the next c trees of a level. */
    method AddParent(level: seq<nat>, start: nat, c: nat, ghost ps: seq<Tree>, ghost G: seq<int>, ghost ts: seq<Tree>, ghost F: seq<int>, ghost h: nat, ghost heap0: Heap, ghost alloc0: nat, end: nat)
      returns (p: nat)
      requires ValidOrder(order) && 0 < c <= order && start + c == end <= |ts| && (start == 0 ==> c > 1) && level == Addrs(ts)
      requires Rising(heap0, alloc0, heap, alloc, ps, G, ts, F, h, order, start) == true
      modifies this`heap, this`alloc
      ensures Addrs(ps + [Group(p, ts, F, start, c)]) == Addrs(ps) + [p]
      ensures end < |F| && Rising(heap0, alloc0, heap, alloc, ps + [Group(p, ts, F, start, c)], G + [F[end]], ts, F, h, order, end) == true
    {
      ghost var heap1 := heap;
      RisingMid(heap0, alloc0, heap, alloc, ps, G, ts, F, h, order, start, c);
      p := MakeParent(level, start, c, ts, F, h);
      RisingStep(heap0, alloc0, heap1, p, ps, G, ts, F, h, order, start, c, heap[p], end);
    }

    /** The next level up: groups of `order` neighbours, the last possibly a single tree. */
    method BuildParents(level: seq<nat>, ghost ts: seq<Tree>, ghost F: seq<int>, ghost h: nat, ghost heap0: Heap, ghost alloc0: nat)
      returns (next: seq<nat>, ghost ps: seq<Tree>, ghost G: seq<int>)
      requires ValidOrder(order) && |ts| > 1 && level == Addrs(ts)
      requires Level(heap0, alloc0, heap, alloc, ts, F, h, order)
      modifies this`heap, this`alloc
      ensures Level(heap0, alloc0, heap, alloc, ps, G, h + 1, order) == true
      ensures |G| == |ps| + 1 && G[0] == F[0] && G[|ps|] == F[|ts|]
      ensures 0 < |ps| < |ts| && FlatAll(ps) == FlatAll(ts) && next == Addrs(ps)
    {
      next, ps, G := [], [], [F[0]];
      var start := 0;
      RisingStart(heap0, alloc0, heap, alloc, ts, F, h, order);
      while start < |level|
        invariant 0 <= start <= |ts| && next == Addrs(ps)
        invariant Rising(heap0, alloc0, heap, alloc, ps, G, ts, F, h, order, start) == true
      {
        var c := if |level| - start > order then order else |level| - start;
        var end := start + c;
        var p := AddParent(level, start, c, ps, G, ts, F, h, heap0, alloc0, end);
        next := next + [p];
        ps, G := ps + [Group(p, ts, F, start, c)], G + [F[end]];
        start := end;
      }
      assert start == |ts|;
      RisingEnd(heap0, alloc0, heap, alloc, ps, G, ts, F, h, order);
    }

    /** destroy_node: every node of the tree is freed, nothing else. */
    method DestroyNode(p: nat, ghost t: Tree)
      requires Matches(heap, t) && t.ptr == p && Distinct(t)
      modifies this`heap
      ensures heap == old(heap) - Ptrs(t)
      decreases t
    {
      var n := heap[p];
      if !n.isLeaf {
        var i := 0;
        while i <= n.cnt
          invariant 0 <= i <= n.cnt + 1
          invariant heap == old(heap) - PtrsAll(t.kids[..i])
        {
          AddrsAt(t.kids, i);
          AddrsUpTo(t.kids, i);
          MatchesFrame(old(heap), heap, t.kids[i]);
          DestroyNode(n.kids[i], t.kids[i]);
          i := i + 1;
        }
        assert t.kids[..i] == t.kids;
      }
      heap := heap - {p};
    }

    /** Replace the tree by a freshly built one and free the old nodes. */
    method Install(newRoot: nat, ghost t: Tree, ghost h: nat, ghost heap0: Heap, ghost alloc0: nat)
      requires ValidOrder(order) && newRoot == t.ptr && Fresh(heap0, alloc0)
      requires root == shape.ptr && Matches(heap0, shape) && Distinct(shape)
      requires TreeAt(heap, alloc, t, h, keyMin, keyEnd, order) && Untouched(heap0, alloc0, heap, alloc, [t])
      modifies this
      ensures Valid() && order == old(order) == bound && shape == t && heap == old(heap) - old(Ptrs(shape))
    {
      ghost var heap1 := heap;
      SingleTree(t);
      MatchesPtrs(heap0, shape);
      MatchesFrame(heap0, heap, shape);
      DestroyNode(root, shape);
      MatchesFrame(heap1, heap, t);
      LeavesInPtrs(t);
      MatchesPtrs(heap1, t);
      LinkedFrame(heap1, heap, Leaves(t), 0);
      root := newRoot;
      shape, height, bound := t, h, order;
    }

    /** bptree_build_from_sorted: pairs in strictly increasing key order replace the
        contents.  Any other input leaves the contents alone, and searches, scans and
        deletes go on working; but it has already changed the order, and inserts work
        only if every node has room for that. */
    method BuildFromSorted(pairs: Pairs) returns (ok: bool)
      requires Valid() && keyMin < keyEnd && PairsWithin(pairs, keyMin, keyEnd)
      modifies this
      ensures order == ChooseOrder(|pairs|)
      ensures ok <==> SortedPairs(pairs)
      ensures Valid() && Contents() == if ok then pairs else old(Contents())
      ensures ok ==> bound == order && Roomy()
      ensures !ok ==> heap == old(heap) && root == old(root) && shape == old(shape) && height == old(height) && alloc == old(alloc) && bound == old(bound)
      ensures !ok && old(bound) <= order ==> Roomy()
    {
      order := ChooseOrder(|pairs|);
      var i := 1;
      while i < |pairs|
        invariant 1 <= i
        invariant forall j, k :: 0 <= j < k < i && k < |pairs| ==> pairs[j].0 < pairs[k].0
        invariant unchanged(this`heap, this`root, this`shape, this`height, this`alloc, this`bound) && order == ChooseOrder(|pairs|)
      {
        if pairs[i - 1].0 >= pairs[i].0 {
          if bound <= order {
            MadeForOrder();
          }
          return false;
        }
        i := i + 1;
      }
      BuildLevels(pairs);
      MadeForOrder();
      ok := true;
    }

    method BuildLevels(pairs: Pairs)
      requires ValidOrder(order) && keyMin < keyEnd && SortedPairs(pairs) && PairsWithin(pairs, keyMin, keyEnd)
      requires root == shape.ptr && Matches(heap, shape) && Distinct(shape) && Fresh(heap, alloc)
      modifies this
      ensures Valid() && order == old(order) == bound && Contents() == pairs
    {
      ghost var heap0, alloc0 := heap, alloc;
      if pairs == [] {
        var p := Allocate(true);
        ghost var t := Leaf(p, [], []);
        SingleTree(t);
        assert Linked(heap, [p], 0) by { assert [p][1..] == []; }
        Install(p, t, 1, heap0, alloc0);
        return;
      }
      var level, ts, F := BuildLeaves(pairs);
      ghost var h := 1;
      while |level| > 1
        invariant ts != [] && h > 0 && level == Addrs(ts) && FlatAll(ts) == pairs
        invariant Level(heap0, alloc0, heap, alloc, ts, F, h, order) == true
        invariant |F| == |ts| + 1 && F[0] == keyMin && F[|ts|] == keyEnd
        invariant order == old(order) && root == old(root) && shape == old(shape)
        decreases |level|
      {
        level, ts, F := BuildParents(level, ts, F, h, heap0, alloc0);
        h := h + 1;
      }
      LastLevel(heap0, alloc0, heap, alloc, ts, F, h, order);
      Install(level[0], ts[0], h, heap0, alloc0);
    }
  }

  /** Everything known about one insertion, in terms of the tree alone. */
  lemma InsertFacts(heap: Heap, alloc: nat, t: Tree, h: nat, lo: int, hi: int, m: nat, k: int, v: int)
    requires ValidOrder(m) && WF(t, h, lo, hi, m) && Distinct(t) && Matches(heap, t) && Fresh(heap, alloc) && lo <= k < hi
    ensures var r := Insert(t, h, lo, hi, m, k, v, alloc);
            && InsertOk(Flat(t), h, lo, hi, m, k, v, r)
            && (r.Dup? <==> k in ToMap(Flat(t)))
            && (!r.Dup? ==> ToMap(Put(Flat(t), k, v)) == ToMap(Flat(t))[k := v])
            && Leaves(t) != [] && Placed(Ptrs(t), t.ptr, Leaves(t)[0], r, alloc, h - 1)
            && (Filled(t, m, true) ==> InsFilled(r, m, true))
  {
    InsertRefines(t, h, lo, hi, m, k, v, alloc);
    ToMapKeys(Flat(t));
    MatchesPtrs(heap, t);
    InsertPlaced(t, h, lo, hi, m, k, v, alloc);
    var r := Insert(t, h, lo, hi, m, k, v, alloc);
    if !r.Dup? {
      PutIsMapUpdate(Flat(t), k, v);
    }
    if Filled(t, m, true) {
      InsertFilled(t, h, lo, hi, m, k, v, alloc, true);
    }
  }
}
