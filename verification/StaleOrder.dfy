/** What an insertion does in a tree whose order has become too small for its nodes
    (src/legacy/bptree.c:351-414), as a rejected bulk build leaves it behind. */
module StaleOrder {
  import opened BTreeSpec
  import BTreeHeap

  /** How insert_recursive goes on after it has found the place: the key is there, it fits,
      the node is split, or the code copies into a right node that was never made. */
  datatype Course = Duplicate | Fits | Splits | NoRight

  /** A node of n keys that gets one more: the right node is made when n is the maximum, and
      used when n + 1 is above it. */
  function NodeCourse(n: nat, m: nat): Course {
    var made := n == m - 1;
    if n + 1 <= m - 1 then Fits else if made then Splits else NoRight
  }

  /** insert_recursive in a tree made for order b, at order m. */
  ghost function CourseOf(t: Tree, h: nat, lo: int, hi: int, b: nat, m: nat, k: int): Course
    requires WF(t, h, lo, hi, b)
    decreases h
  {
    match t
    case Leaf(_, keys, _) => if k in keys then Duplicate else NodeCourse(|keys|, m)
    case Node(_, keys, kids) =>
      var i := UpperBound(keys, k);
      var sub := CourseOf(kids[i], h - 1, Lo(keys, i, lo), Hi(keys, i, hi), b, m, k);
      if sub.Splits? then NodeCourse(|keys|, m) else sub
  }

  /** The numbers of keys in the nodes on the way to a key, from its leaf up. */
  ghost function Counts(t: Tree, h: nat, lo: int, hi: int, b: nat, k: int): (c: seq<nat>)
    requires WF(t, h, lo, hi, b)
    ensures |c| == h
    decreases h
  {
    match t
    case Leaf(_, keys, _) => [|keys|]
    case Node(_, keys, kids) =>
      var i := UpperBound(keys, k);
      Counts(kids[i], h - 1, Lo(keys, i, lo), Hi(keys, i, hi), b, k) + [|keys|]
  }

  /** The leaf a key leads to has it. */
  ghost predicate InLeaf(t: Tree, h: nat, lo: int, hi: int, b: nat, k: int)
    requires WF(t, h, lo, hi, b)
    decreases h
  {
    match t
    case Leaf(_, keys, _) => k in keys
    case Node(_, keys, kids) =>
      var i := UpperBound(keys, k);
      InLeaf(kids[i], h - 1, Lo(keys, i, lo), Hi(keys, i, hi), b, k)
  }

  /** The nodes below the j-th are exactly full, and it is not. */
  ghost predicate Stops(c: seq<nat>, m: nat, j: nat) {
    j < |c| && c[j] != m - 1 && forall i :: 0 <= i < j ==> c[i] == m - 1
  }

  ghost predicate AllFull(c: seq<nat>, m: nat) {
    forall i :: 0 <= i < |c| ==> c[i] == m - 1
  }

  lemma StopsPush(c: seq<nat>, n: nat, m: nat)
    ensures forall j: nat {:trigger Stops(c + [n], m, j)} :: Stops(c + [n], m, j) <==> Stops(c, m, j) || (j == |c| && AllFull(c, m) && n != m - 1)
    ensures AllFull(c + [n], m) <==> AllFull(c, m) && n == m - 1
  {
    var d := c + [n];
    assert d[|c|] == n && forall i :: 0 <= i < |c| ==> d[i] == c[i];
    forall j: nat ensures Stops(d, m, j) <==> Stops(c, m, j) || (j == |c| && AllFull(c, m) && n != m - 1) {
    }
  }

  /** An insertion of a new key splits every node on its way exactly when all are full; else
      the first that is not decides: it takes the key, or it has too many already. */
  lemma {:induction false} CourseIff(t: Tree, h: nat, lo: int, hi: int, b: nat, m: nat, k: int)
    requires WF(t, h, lo, hi, b)
    ensures var c, r := Counts(t, h, lo, hi, b, k), CourseOf(t, h, lo, hi, b, m, k);
            && (r.Duplicate? <==> InLeaf(t, h, lo, hi, b, k))
            && (!r.Duplicate? ==> (r.Splits? <==> AllFull(c, m)) && forall j: nat {:trigger Stops(c, m, j)} :: Stops(c, m, j) ==> r == NodeCourse(c[j], m))
    decreases h
  {
    if t.Node? {
      var i := UpperBound(t.keys, k);
      var lo', hi' := Lo(t.keys, i, lo), Hi(t.keys, i, hi);
      CourseIff(t.kids[i], h - 1, lo', hi', b, m, k);
      StopsPush(Counts(t.kids[i], h - 1, lo', hi', b, k), |t.keys|, m);
    } else {
      assert Counts(t, h, lo, hi, b, k)[0] == |t.keys|;
    }
  }

  lemma {:induction false} FirstStop(c: seq<nat>, m: nat) returns (j: nat)
    requires !AllFull(c, m)
    ensures Stops(c, m, j)
  {
    if c[0] != m - 1 {
      j := 0;
    } else {
      assert !AllFull(c[1..], m) by {
        var i :| 0 <= i < |c| && c[i] != m - 1;
        assert c[1..][i - 1] == c[i];
      }
      var r := FirstStop(c[1..], m);
      j := r + 1;
      assert c[j] == c[1..][r] && forall i :: 1 <= i < j ==> c[i] == c[1..][i - 1];
    }
  }

  /** The insertion copies into a node that was never made if and only if the key is new and
      the first node from its leaf up that is not exactly full has too many keys for the
      order. */
  lemma NoRightIff(t: Tree, h: nat, lo: int, hi: int, b: nat, m: nat, k: int)
    requires WF(t, h, lo, hi, b)
    ensures CourseOf(t, h, lo, hi, b, m, k).NoRight? <==>
            !InLeaf(t, h, lo, hi, b, k) && exists j: nat {:trigger Stops(Counts(t, h, lo, hi, b, k), m, j)} ::
              Stops(Counts(t, h, lo, hi, b, k), m, j) && Counts(t, h, lo, hi, b, k)[j] >= m
  {
    var c := Counts(t, h, lo, hi, b, k);
    CourseIff(t, h, lo, hi, b, m, k);
    if !AllFull(c, m) {
      var j := FirstStop(c, m);
    }
  }

  /** Room in every node, which InsertPair asks for, rules that out. */
  lemma {:induction false} RoomyCounts(t: Tree, h: nat, lo: int, hi: int, b: nat, m: nat, k: int)
    requires WF(t, h, lo, hi, b) && NodesBelow(t, m)
    ensures forall j :: 0 <= j < h ==> Counts(t, h, lo, hi, b, k)[j] < m
    ensures !CourseOf(t, h, lo, hi, b, m, k).NoRight?
    decreases h
  {
    if t.Node? {
      var i := UpperBound(t.keys, k);
      RoomyCounts(t.kids[i], h - 1, Lo(t.keys, i, lo), Hi(t.keys, i, hi), b, m, k);
    }
  }

  /** In a tree that fits its order this is the course Insert takes. */
  lemma {:induction false} CourseIsInsert(t: Tree, h: nat, lo: int, hi: int, m: nat, k: int, v: int, nx: nat)
    requires m >= 4 && WF(t, h, lo, hi, m)
    ensures CourseOf(t, h, lo, hi, m, m, k) ==
            match Insert(t, h, lo, hi, m, k, v, nx) { case Dup => Duplicate case One(_) => Fits case Two(_, _, _) => Splits }
    decreases h
  {
    if t.Node? {
      var i := UpperBound(t.keys, k);
      CourseIsInsert(t.kids[i], h - 1, Lo(t.keys, i, lo), Hi(t.keys, i, hi), m, k, v, nx);
    }
  }

  predicate IsOrder(m: int) {
    m == 8 || m == 16 || m == 32 || m == 64
  }

  /** The orders: 8, 16, 32 or 64, the least that is enough for the one asked for, and by the
      number of pairs in a bulk build. */
  lemma OrderSteps(wanted: int, count: nat)
    ensures IsOrder(BTreeHeap.NormalizeOrder(wanted)) && forall m :: IsOrder(m) && wanted <= m ==> wanted <= BTreeHeap.NormalizeOrder(wanted) <= m
    ensures wanted > 64 ==> BTreeHeap.NormalizeOrder(wanted) == 64
    ensures BTreeHeap.ChooseOrder(count) <= 8 <==> count < 4096
    ensures BTreeHeap.ChooseOrder(count) <= 16 <==> count < 65536
    ensures BTreeHeap.ChooseOrder(count) <= 32 <==> count < 262144
    ensures IsOrder(BTreeHeap.ChooseOrder(count))
  {
  }

  // ------------------------------------------------------------ a run that ends there

  /** A new tree of order 32 with the keys 0 to 9. */
  method TenKeys() returns (t: BTreeHeap.BPlusTree)
    ensures fresh(t) && t.Valid() && t.order == 32 && t.keyMin == 0 && t.keyEnd == 100
    ensures |t.Contents()| == 10 && t.bound == 32 && Filled(t.shape, 32, true) && forall j :: 0 <= j < 10 ==> t.Contents()[j].0 < 10
  {
    t := new BTreeHeap.BPlusTree(0, 100, 32);
    var i := 0;
    while i < 10
      invariant 0 <= i <= 10 && fresh(t) && t.Valid() && t.order == 32 == t.bound && t.keyMin == 0 && t.keyEnd == 100
      invariant |t.Contents()| == i && Filled(t.shape, 32, true)
      invariant forall j :: 0 <= j < i ==> t.Contents()[j].0 < i
    {
      t.MadeForOrder();
      ghost var was := t.Contents();
      AllBelow(was, i);
      PutLast(was, i, i);
      var code := t.InsertPair(i, i);
      i := i + 1;
    }
  }

  lemma {:induction false} AllBelow(s: Pairs, k: int)
    requires forall j :: 0 <= j < |s| ==> s[j].0 < k
    ensures k !in ToMap(s)
  {
    if s != [] {
      AllBelow(s[1..], k);
    }
  }

  lemma {:induction false} PutLast(s: Pairs, k: int, v: int)
    requires forall j :: 0 <= j < |s| ==> s[j].0 < k
    ensures Put(s, k, v) == s + [(k, v)]
  {
    if s != [] {
      PutLast(s[1..], k, v);
    }
  }

  /** Ten keys at order 32 are one leaf. */
  lemma TenInLeaf(t: Tree, h: nat, lo: int, hi: int)
    requires WF(t, h, lo, hi, 32) && Filled(t, 32, true) && |Flat(t)| == 10
    ensures t.Leaf? && h == 1 && |t.keys| == 10 && forall j :: 0 <= j < 10 ==> t.keys[j] == Flat(t)[j].0
  {
    if h >= 2 {
      HeightIsLogarithmic(t, h, lo, hi, 32);
      PowPositive(16, h - 2);
      assert false;
    }
  }

  lemma {:induction false} PowPositive(b: nat, n: nat)
    requires b > 0
    ensures Pow(b, n) >= 1
  {
    if n > 0 {
      PowPositive(b, n - 1);
    }
  }

  /** A run of the code: ten insertions, a bulk build that is rejected, and after that every
      insertion of a new key copies into a node that was never made. */
  method RejectedBuild() returns (t: BTreeHeap.BPlusTree)
    ensures fresh(t) && t.Valid() && !t.Roomy()
    ensures forall k :: 10 <= k < 100 ==> CourseOf(t.shape, t.height, t.keyMin, t.keyEnd, t.bound, t.order, k).NoRight?
  {
    t := TenKeys();
    TenInLeaf(t.shape, t.height, t.keyMin, t.keyEnd);
    var pairs := [(2, 0), (1, 0)];
    assert pairs[0].0 > pairs[1].0;
    var ok := t.BuildFromSorted(pairs);
  }
}
