/** Which versions a snapshot sees and a prune leaves, said of the version ids
    (src/db/dbapi.c:919-926, 1192-1210). */
module ChainRules {
  import opened Versions

  /** A snapshot sees the newest version that is not newer than it, if there is one. */
  lemma SeesNewest<T>(c: Chain<T>, snap: nat, i: nat)
    requires Descending(c)
    ensures VisIdx(c, snap) == i < |c| <==> i < |c| && c[i].id <= snap && forall j :: 0 <= j < |c| && c[j].id <= snap ==> c[j].id <= c[i].id
    ensures VisIdx(c, snap) == |c| <==> forall j :: 0 <= j < |c| ==> c[j].id > snap
  {
    var v := VisIdx(c, snap);
    if i < |c| && c[i].id <= snap && v < |c| && v != i {
      assert c[v].id <= snap && c[i].id <= snap;
    }
  }

  /** A prune with a positive keep id leaves a version exactly when no newer one is old
      enough for that id; with keep id 0 it leaves the head alone. */
  lemma PruneLeaves<T>(c: Chain<T>, keep: nat, i: nat)
    requires Descending(c) && i < |c|
    ensures Prune(c, keep) == c[..|Prune(c, keep)|]
    ensures keep > 0 ==> (i < |Prune(c, keep)| <==> !exists j :: 0 <= j < |c| && c[i].id < c[j].id <= keep)
    ensures keep == 0 ==> (i < |Prune(c, keep)| <==> i == 0)
  {
    if keep > 0 {
      var v := VisIdx(c, keep);
      if i > v && v < |c| {
        assert c[i].id < c[v].id <= keep;
      } else {
        forall j | 0 <= j < |c| && c[i].id < c[j].id ensures c[j].id > keep {
          assert j < i;
        }
      }
    }
  }

  /** So after it at most one version of the keep id's age or older is left. */
  lemma PruneLeavesOne<T>(c: Chain<T>, keep: nat, i: nat, j: nat)
    requires Descending(c) && keep > 0 && i < j < |Prune(c, keep)|
    ensures Prune(c, keep)[i].id > keep
  {
    PruneLeaves(c, keep, j);
    assert c[j].id < c[i].id;
  }
}
