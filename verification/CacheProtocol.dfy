/** The query cache protocol of do_sql in src/api/route.c, interleaved with commits,
    pruning, eviction and other requests.

    A request reads the head version of its table, looks its SQL text up under that
    version and, on a miss, takes a snapshot, reads, answers and stores the answer
    under the version it read at first, which may by then be old.  `query` is what a
    SELECT answers on a table, `tableOf` the table its text names. */
module CacheProtocol {
  import opened Basics
  import opened Versions
  import VersionRuns

  datatype Entry<+B> = Entry(tag: nat, body: B)

  /** How far a request has come. */
  datatype Phase<+B> =
    | Asked                        // db_tab_ver has answered
    | Missed                       // query_cache_lookup found nothing usable
    | Snapped(h: nat)              // db_snap
    | Picked(h: nat, ptr: nat)     // the version do_read chose under the lock
    | Fetched(h: nat, body: B)     // the answer, read outside the lock
    | Answered(body: B)            // snapshot released

  datatype Req<+B> = Req(sql: string, ver: nat, phase: Phase<B>)

  datatype State<T, S, B> = State(w: World<T, S>, cache: map<string, Entry<B>>, reqs: map<nat, Req<B>>)

  datatype Act<T, S> =
    | Db(step: Step<T, S>)
    | ReadVer(r: nat, sql: string)
    | Hit(r: nat)
    | Miss(r: nat)
    | TakeSnap(r: nat, h: nat)
    | Pick(r: nat)
    | Fetch(r: nat, seen: T)
    | Finish(r: nat)
    | Store(r: nat, keep: bool)    // keep: an answer that can be cached
    | Evict(key: string)           // expiry, a version change, or a full cache

  datatype Query<!T, !B> = Query(tableOf: string -> string, answer: (string, T) -> B)

  ghost predicate Owns<B>(q: Req<B>, h: nat) {
    (q.phase.Snapped? || q.phase.Picked? || q.phase.Fetched?) && q.phase.h == h
  }

  ghost predicate Init0<T, S, B>(c: State<T, S, B>) {
    Init(c.w) && c.cache == map[] && c.reqs == map[]
  }

  ghost predicate Moved<T, S, B>(c: State<T, S, B>, c': State<T, S, B>, r: nat, phase: Phase<B>) {
    r in c.reqs && c'.reqs == c.reqs[r := c.reqs[r].(phase := phase)] && c'.cache == c.cache
  }

  ghost predicate DoReadVer<T, S, B>(q: Query<T, B>, c: State<T, S, B>, c': State<T, S, B>, r: nat, sql: string) {
    && r !in c.reqs && q.tableOf(sql) in c.w.tabs && c.w.tabs[q.tableOf(sql)] != []
    && c' == c.(reqs := c.reqs[r := Req(sql, c.w.tabs[q.tableOf(sql)][0].id, Asked)])
  }

  ghost predicate DoHit<T, S, B>(c: State<T, S, B>, c': State<T, S, B>, r: nat) {
    && r in c.reqs && c.reqs[r].phase.Asked?
    && c.reqs[r].sql in c.cache && c.cache[c.reqs[r].sql].tag == c.reqs[r].ver
    && c' == c.(reqs := c.reqs - {r})
  }

  ghost predicate DoTakeSnap<T, S, B>(exec: (T, S) -> T, c: State<T, S, B>, c': State<T, S, B>, r: nat, h: nat) {
    Moved(c, c', r, Snapped(h)) && c.reqs[r].phase.Missed? && Next(exec, c.w, c'.w, Snap(h))
  }

  ghost predicate DoPick<T, S, B>(q: Query<T, B>, c: State<T, S, B>, c': State<T, S, B>, r: nat) {
    && r in c.reqs && c.reqs[r].phase.Snapped? && c.reqs[r].phase.h in c.w.live && c'.w == c.w
    && var t := q.tableOf(c.reqs[r].sql);
    && t in c.w.tabs && VersionRuns.Visible(c.w, t, c.w.live[c.reqs[r].phase.h]).Some?
    && Moved(c, c', r, Picked(c.reqs[r].phase.h, VersionRuns.Visible(c.w, t, c.w.live[c.reqs[r].phase.h]).value.ptr))
  }

  /** The rows are read through the pointer, without the lock: what is seen is the
      version at that address, or anything at all if it had been freed. */
  ghost predicate DoFetch<T, S, B>(q: Query<T, B>, c: State<T, S, B>, c': State<T, S, B>, r: nat, seen: T) {
    && r in c.reqs && c.reqs[r].phase.Picked? && c'.w == c.w
    && var t := q.tableOf(c.reqs[r].sql);
    && (t in c.w.tabs ==> forall i :: 0 <= i < |c.w.tabs[t]| && c.w.tabs[t][i].ptr == c.reqs[r].phase.ptr ==> seen == c.w.tabs[t][i].data)
    && Moved(c, c', r, Fetched(c.reqs[r].phase.h, q.answer(c.reqs[r].sql, seen)))
  }

  ghost predicate DoFinish<T, S, B>(exec: (T, S) -> T, c: State<T, S, B>, c': State<T, S, B>, r: nat) {
    && r in c.reqs && c.reqs[r].phase.Fetched?
    && Moved(c, c', r, Answered(c.reqs[r].phase.body)) && Next(exec, c.w, c'.w, Release(c.reqs[r].phase.h))
  }

  ghost predicate DoStore<T, S, B>(c: State<T, S, B>, c': State<T, S, B>, r: nat, keep: bool) {
    && r in c.reqs && c.reqs[r].phase.Answered?
    && c' == c.(reqs := c.reqs - {r},
                cache := if keep then c.cache[c.reqs[r].sql := Entry(c.reqs[r].ver, c.reqs[r].phase.body)] else c.cache)
  }

  /** Any step of the database that does not release a request's snapshot. */
  ghost predicate DoDb<T, S, B>(exec: (T, S) -> T, c: State<T, S, B>, c': State<T, S, B>, step: Step<T, S>) {
    && Next(exec, c.w, c'.w, step) && c'.cache == c.cache && c'.reqs == c.reqs
    && (step.Release? ==> forall r :: r in c.reqs ==> !Owns(c.reqs[r], step.h))
  }

  ghost predicate Step1<T, S, B>(exec: (T, S) -> T, q: Query<T, B>, c: State<T, S, B>, c': State<T, S, B>, act: Act<T, S>) {
    match act
    case Db(step) => DoDb(exec, c, c', step)
    case ReadVer(r, sql) => DoReadVer(q, c, c', r, sql)
    case Hit(r) => DoHit(c, c', r)
    case Miss(r) => r in c.reqs && c.reqs[r].phase.Asked? && c'.w == c.w && Moved(c, c', r, Missed)
    case TakeSnap(r, h) => DoTakeSnap(exec, c, c', r, h)
    case Pick(r) => DoPick(q, c, c', r)
    case Fetch(r, seen) => DoFetch(q, c, c', r, seen)
    case Finish(r) => DoFinish(exec, c, c', r)
    case Store(r, keep) => DoStore(c, c', r, keep)
    case Evict(key) => c' == c.(cache := c.cache - {key})
  }

  ghost predicate StepAt<T, S, B>(exec: (T, S) -> T, q: Query<T, B>, cs: seq<State<T, S, B>>, acts: seq<Act<T, S>>, i: nat) {
    i < |acts| && i + 1 < |cs| && Step1(exec, q, cs[i], cs[i + 1], acts[i])
  }

  ghost predicate Run<T, S, B>(exec: (T, S) -> T, q: Query<T, B>, cs: seq<State<T, S, B>>, acts: seq<Act<T, S>>) {
    && |cs| == |acts| + 1 && Init0(cs[0])
    && forall i :: 0 <= i < |acts| ==> StepAt(exec, q, cs, acts, i)
  }

  // -------------------------------------------------------------- invariant

  ghost predicate ReqInv<T, S, B>(q: Query<T, B>, w: World<T, S>, req: Req<B>) {
    && q.tableOf(req.sql) in w.tabs
    && (forall h :: Owns(req, h) ==> h in w.live)
    && (req.phase.Picked? && req.phase.h in w.live ==>
          && VersionRuns.Visible(w, q.tableOf(req.sql), w.live[req.phase.h]).Some?
          && VersionRuns.Visible(w, q.tableOf(req.sql), w.live[req.phase.h]).value.ptr == req.phase.ptr)
  }

  ghost predicate ReqsOk<T, S, B>(q: Query<T, B>, c: State<T, S, B>) {
    && (forall r :: r in c.reqs ==> ReqInv(q, c.w, c.reqs[r]))
    && (forall r, s, h :: r in c.reqs && s in c.reqs && r != s ==> !(Owns(c.reqs[r], h) && Owns(c.reqs[s], h)))
  }

  /** Database steps keep a request's pointer good while it holds its snapshot. */
  lemma ReqKept<T, S, B>(exec: (T, S) -> T, q: Query<T, B>, w: World<T, S>, w': World<T, S>, step: Step<T, S>, req: Req<B>)
    requires Inv(exec, w) == true && Next(exec, w, w', step) == true && ReqInv(q, w, req)
    requires forall h :: Owns(req, h) ==> h in w'.live
    ensures ReqInv(q, w', req)
  {
    var t := q.tableOf(req.sql);
    StepTabs(exec, w, w', step, t);
    if req.phase.Picked? {
      assert Owns(req, req.phase.h);
      VersionRuns.StepKeepsView(exec, w, w', step, req.phase.h, t);
    }
  }

  lemma StepTabs<T, S>(exec: (T, S) -> T, w: World<T, S>, w': World<T, S>, step: Step<T, S>, t: string)
    requires Next(exec, w, w', step) && t in w.tabs
    ensures t in w'.tabs
  {
  }

  lemma DbInv<T, S, B>(exec: (T, S) -> T, q: Query<T, B>, c: State<T, S, B>, c': State<T, S, B>, step: Step<T, S>)
    requires Inv(exec, c.w) == true && ReqsOk(q, c) && DoDb(exec, c, c', step)
    ensures ReqsOk(q, c') == true
  {
    forall r | r in c'.reqs ensures ReqInv(q, c'.w, c'.reqs[r]) {
      forall h | Owns(c.reqs[r], h) ensures h in c'.w.live {
        VersionRuns.StepLive(exec, c.w, c'.w, step, h);
      }
      ReqKept(exec, q, c.w, c'.w, step, c.reqs[r]);
    }
  }

  /** A step of request r that leaves the tables alone: the others keep their records,
      handles and all, and r owns no handle that was open before but its own. */
  ghost predicate OneReq<T, S, B>(c: State<T, S, B>, c': State<T, S, B>, r: nat) {
    && c'.w.tabs == c.w.tabs
    && (forall s :: s in c'.reqs && s != r ==> s in c.reqs && c'.reqs[s] == c.reqs[s])
    && (r in c'.reqs ==> forall h :: Owns(c'.reqs[r], h) ==> h !in c.w.live || (r in c.reqs && Owns(c.reqs[r], h)))
    && (forall h :: h in c.w.live ==> (h in c'.w.live && c'.w.live[h] == c.w.live[h]) || (r in c.reqs && Owns(c.reqs[r], h)))
  }

  lemma OtherReq<T, S, B>(q: Query<T, B>, c: State<T, S, B>, c': State<T, S, B>, r: nat, s: nat)
    requires ReqsOk(q, c) && OneReq(c, c', r) && s in c'.reqs && s != r
    ensures ReqInv(q, c'.w, c'.reqs[s]) == true
    ensures r in c'.reqs ==> forall h :: !(Owns(c'.reqs[s], h) && Owns(c'.reqs[r], h))
  {
    assert ReqInv(q, c.w, c.reqs[s]);
    forall h | Owns(c.reqs[s], h) ensures h in c'.w.live && c'.w.live[h] == c.w.live[h] {
      assert h in c.w.live;
    }
    if c.reqs[s].phase.Picked? {
      assert Owns(c.reqs[s], c.reqs[s].phase.h);
    }
  }

  lemma OneReqInv<T, S, B>(q: Query<T, B>, c: State<T, S, B>, c': State<T, S, B>, r: nat)
    requires ReqsOk(q, c) == true && OneReq(c, c', r) == true
    requires r in c'.reqs ==> ReqInv(q, c'.w, c'.reqs[r]) == true
    ensures ReqsOk(q, c') == true
  {
    forall s | s in c'.reqs && s != r
      ensures ReqInv(q, c'.w, c'.reqs[s]) == true
      ensures r in c'.reqs ==> forall h :: !(Owns(c'.reqs[s], h) && Owns(c'.reqs[r], h))
    {
      OtherReq(q, c, c', r, s);
    }
  }

  lemma SnapStep<T, S>(exec: (T, S) -> T, w: World<T, S>, w': World<T, S>, h: nat)
    requires Inv(exec, w) == true && Next(exec, w, w', Snap(h)) == true
    ensures Inv(exec, w') == true && h !in w.live && w'.live == w.live[h := w.curVer] && w'.tabs == w.tabs && w'.curVer == w.curVer
  {
    VersionRuns.StepInv(exec, w, w', Snap(h));
  }

  lemma ReleaseStep<T, S>(exec: (T, S) -> T, w: World<T, S>, w': World<T, S>, h: nat)
    requires Inv(exec, w) == true && Next(exec, w, w', Release(h)) == true
    ensures Inv(exec, w') == true && w'.live == w.live - {h} && w'.tabs == w.tabs
  {
    VersionRuns.StepInv(exec, w, w', Release(h));
  }

  lemma TakeSnapInv<T, S, B>(q: Query<T, B>, c: State<T, S, B>, c': State<T, S, B>, r: nat, h: nat)
    requires ReqsOk(q, c) && Moved(c, c', r, Snapped(h)) && c.reqs[r].phase.Missed?
    requires h !in c.w.live && c'.w.live == c.w.live[h := c.w.curVer] && c'.w.tabs == c.w.tabs
    ensures ReqsOk(q, c') == true
  {
    assert ReqInv(q, c.w, c.reqs[r]);
    OneReqInv(q, c, c', r);
  }

  lemma FinishInv<T, S, B>(q: Query<T, B>, c: State<T, S, B>, c': State<T, S, B>, r: nat)
    requires ReqsOk(q, c) && r in c.reqs && c.reqs[r].phase.Fetched? && Moved(c, c', r, Answered(c.reqs[r].phase.body))
    requires c'.w.live == c.w.live - {c.reqs[r].phase.h} && c'.w.tabs == c.w.tabs
    ensures ReqsOk(q, c') == true
  {
    assert ReqInv(q, c.w, c.reqs[r]);
    OneReqInv(q, c, c', r);
  }

  lemma PickInv<T, S, B>(q: Query<T, B>, c: State<T, S, B>, c': State<T, S, B>, r: nat)
    requires ReqsOk(q, c) && DoPick(q, c, c', r)
    ensures ReqsOk(q, c') == true
  {
    assert ReqInv(q, c.w, c.reqs[r]);
    OneReqInv(q, c, c', r);
  }

  lemma FetchInv<T, S, B>(q: Query<T, B>, c: State<T, S, B>, c': State<T, S, B>, r: nat, seen: T)
    requires ReqsOk(q, c) && DoFetch(q, c, c', r, seen)
    ensures ReqsOk(q, c') == true
  {
    assert ReqInv(q, c.w, c.reqs[r]);
    OneReqInv(q, c, c', r);
  }

  lemma MissInv<T, S, B>(q: Query<T, B>, c: State<T, S, B>, c': State<T, S, B>, r: nat)
    requires ReqsOk(q, c) && r in c.reqs && c.reqs[r].phase.Asked? && c'.w == c.w && Moved(c, c', r, Missed)
    ensures ReqsOk(q, c') == true
  {
    assert ReqInv(q, c.w, c.reqs[r]);
    OneReqInv(q, c, c', r);
  }

  lemma ReadVerInv<T, S, B>(q: Query<T, B>, c: State<T, S, B>, c': State<T, S, B>, r: nat, sql: string)
    requires ReqsOk(q, c) && DoReadVer(q, c, c', r, sql)
    ensures ReqsOk(q, c') == true
  {
    OneReqInv(q, c, c', r);
  }

  lemma LeaveInv<T, S, B>(q: Query<T, B>, c: State<T, S, B>, c': State<T, S, B>, r: nat)
    requires ReqsOk(q, c) && c'.w == c.w && c'.reqs == c.reqs - {r}
    ensures ReqsOk(q, c') == true
  {
  }

  lemma Step1Reqs<T, S, B>(exec: (T, S) -> T, q: Query<T, B>, c: State<T, S, B>, c': State<T, S, B>, act: Act<T, S>)
    requires Inv(exec, c.w) == true && ReqsOk(q, c) == true && Step1(exec, q, c, c', act) == true
    ensures Inv(exec, c'.w) == true && ReqsOk(q, c') == true
  {
    match act
    case Db(step) => DbInv(exec, q, c, c', step); VersionRuns.StepInv(exec, c.w, c'.w, step);
    case ReadVer(r, sql) => ReadVerInv(q, c, c', r, sql);
    case Hit(r) => LeaveInv(q, c, c', r);
    case Miss(r) => MissInv(q, c, c', r);
    case TakeSnap(r, h) => SnapStep(exec, c.w, c'.w, h); TakeSnapInv(q, c, c', r, h);
    case Pick(r) => PickInv(q, c, c', r);
    case Fetch(r, seen) => FetchInv(q, c, c', r, seen);
    case Finish(r) => ReleaseStep(exec, c.w, c'.w, c.reqs[r].phase.h); FinishInv(q, c, c', r);
    case Store(r, keep) => LeaveInv(q, c, c', r);
    case Evict(key) => assert ReqsOk(q, c');
  }

  lemma {:induction false} RunInv<T, S, B>(exec: (T, S) -> T, q: Query<T, B>, cs: seq<State<T, S, B>>, acts: seq<Act<T, S>>, i: nat)
    requires Run(exec, q, cs, acts) == true && i < |cs|
    ensures Inv(exec, cs[i].w) == true && ReqsOk(q, cs[i]) == true
    decreases i
  {
    if i == 0 {
      VersionRuns.InitInv(exec, cs[0].w);
    } else {
      RunInv(exec, q, cs, acts, i - 1);
      assert StepAt(exec, q, cs, acts, i - 1);
      Step1Reqs(exec, q, cs[i - 1], cs[i], acts[i - 1]);
    }
  }

  ghost predicate Grown<T, S>(w: World<T, S>, w': World<T, S>) {
    w'.disk == w.disk && w.log <= w'.log && w.curVer <= w'.curVer && forall t :: t in w.tabs ==> t in w'.tabs
  }

  lemma StepGrows<T, S>(exec: (T, S) -> T, w: World<T, S>, w': World<T, S>, step: Step<T, S>)
    requires NextAny(exec, w, w', step)
    ensures Grown(w, w')
  {
  }

  lemma Step1Grows<T, S, B>(exec: (T, S) -> T, q: Query<T, B>, c: State<T, S, B>, c': State<T, S, B>, act: Act<T, S>)
    requires Step1(exec, q, c, c', act)
    ensures Grown(c.w, c'.w) == true
  {
    match act
    case Db(step) => StepGrows(exec, c.w, c'.w, step);
    case TakeSnap(r, h) => StepGrows(exec, c.w, c'.w, Snap(h));
    case Finish(r) => StepGrows(exec, c.w, c'.w, Release(c.reqs[r].phase.h));
    case _ => assert c'.w == c.w;
  }

  lemma {:induction false} RunGrows<T, S, B>(exec: (T, S) -> T, q: Query<T, B>, cs: seq<State<T, S, B>>, acts: seq<Act<T, S>>, i: nat, j: nat)
    requires Run(exec, q, cs, acts) == true && i <= j < |cs|
    ensures Grown(cs[i].w, cs[j].w)
    decreases j
  {
    if i < j {
      RunGrows(exec, q, cs, acts, i, j - 1);
      assert StepAt(exec, q, cs, acts, j - 1);
      Step1Grows(exec, q, cs[j - 1], cs[j], acts[j - 1]);
    }
  }

  // ------------------------------------------------------- what answers come from

  /** The request asked at moment i, when its table's head had the version it carries. */
  ghost predicate AskedAt<T, S, B>(q: Query<T, B>, cs: seq<State<T, S, B>>, acts: seq<Act<T, S>>, i: nat, r: nat, req: Req<B>) {
    && i < |acts| && i < |cs| && acts[i] == ReadVer(r, req.sql) && HeadVer(q, cs[i], req.sql, req.ver)
  }

  ghost predicate HeadVer<T, S, B>(q: Query<T, B>, c: State<T, S, B>, sql: string, ver: nat) {
    var t := q.tableOf(sql); t in c.w.tabs && c.w.tabs[t] != [] && c.w.tabs[t][0].id == ver
  }

  /** The body is the query's answer on the newest committed data of state c. */
  ghost predicate IsHeadAnswer<T, S, B>(q: Query<T, B>, c: State<T, S, B>, sql: string, body: B) {
    var t := q.tableOf(sql); t in c.w.tabs && c.w.tabs[t] != [] && body == q.answer(sql, c.w.tabs[t][0].data)
  }

  /** The body was the answer on the head at some moment from i to j. */
  ghost predicate AnswerWithin<T, S, B>(q: Query<T, B>, cs: seq<State<T, S, B>>, i: nat, j: nat, sql: string, body: B) {
    exists m :: i <= m <= j && m < |cs| && IsHeadAnswer(q, cs[m], sql, body)
  }

  ghost predicate SnapWithin<T, S, B>(cs: seq<State<T, S, B>>, i: nat, j: nat, id: nat) {
    exists m :: i <= m <= j && m < |cs| && cs[m].w.curVer == id
  }

  /** Where request r of state j stands, having asked at moment i. */
  ghost predicate Traced<T, S, B>(q: Query<T, B>, cs: seq<State<T, S, B>>, acts: seq<Act<T, S>>, i: nat, j: nat, r: nat)
    requires j < |cs|
  {
    && i < j && r in cs[j].reqs && AskedAt(q, cs, acts, i, r, cs[j].reqs[r])
    && (forall h :: Owns(cs[j].reqs[r], h) ==> h in cs[j].w.live && SnapWithin(cs, i, j, cs[j].w.live[h]))
    && (cs[j].reqs[r].phase.Fetched? || cs[j].reqs[r].phase.Answered? ==>
          AnswerWithin(q, cs, i, j, cs[j].reqs[r].sql, cs[j].reqs[r].phase.body))
  }

  lemma SnapLater<T, S, B>(cs: seq<State<T, S, B>>, i: nat, j: nat, id: nat)
    requires SnapWithin(cs, i, j, id)
    ensures SnapWithin(cs, i, j + 1, id)
  {
  }

  lemma AnswerLater<T, S, B>(q: Query<T, B>, cs: seq<State<T, S, B>>, i: nat, j: nat, sql: string, body: B)
    requires AnswerWithin(q, cs, i, j, sql, body)
    ensures AnswerWithin(q, cs, i, j + 1, sql, body)
  {
  }

  /** Reading through a picked pointer answers as of the snapshot. */
  lemma FetchSees<T, S, B>(exec: (T, S) -> T, q: Query<T, B>, c: State<T, S, B>, c': State<T, S, B>, r: nat, seen: T)
    requires Inv(exec, c.w) == true && ReqsOk(q, c) && DoFetch(q, c, c', r, seen)
    ensures var t := q.tableOf(c.reqs[r].sql);
            && t in c.w.disk && c.reqs[r].phase.h in c.w.live && 1 <= c.w.live[c.reqs[r].phase.h] <= |c.w.log| + 1
            && seen == At(exec, c.w, t, c.w.live[c.reqs[r].phase.h])
  {
    var t, h := q.tableOf(c.reqs[r].sql), c.reqs[r].phase.h;
    assert ReqInv(q, c.w, c.reqs[r]);
    assert Owns(c.reqs[r], h);
    VersionRuns.SnapshotIsConsistent(exec, c.w, h, t);
  }

  /** The head at moment m is the serial state of its version, as seen from later. */
  lemma HeadSeenLater<T, S, B>(exec: (T, S) -> T, q: Query<T, B>, cs: seq<State<T, S, B>>, acts: seq<Act<T, S>>, m: nat, j: nat, t: string)
    requires Run(exec, q, cs, acts) == true && m <= j < |cs| && t in cs[m].w.tabs
    ensures cs[m].w.tabs[t] != [] && t in cs[j].w.disk && 1 <= cs[m].w.curVer <= cs[j].w.curVer == |cs[j].w.log| + 1
    ensures cs[m].w.tabs[t][0].data == At(exec, cs[j].w, t, cs[m].w.curVer)
  {
    RunInv(exec, q, cs, acts, m);
    RunInv(exec, q, cs, acts, j);
    RunGrows(exec, q, cs, acts, m, j);
    HeadLater(exec, cs[m].w, cs[j].w, t);
  }

  lemma HeadLater<T, S>(exec: (T, S) -> T, w: World<T, S>, w': World<T, S>, t: string)
    requires Inv(exec, w) == true && t in w.tabs && w'.disk == w.disk && w.log <= w'.log
    ensures w.tabs[t] != [] && t in w'.disk && 1 <= w.curVer <= |w'.log| + 1
    ensures w.tabs[t][0].data == At(exec, w', t, w.curVer)
  {
    VersionRuns.HeadIsSerial(exec, w, t);
    VersionRuns.AtSame(exec, w, w', t, w.curVer);
  }

  lemma FetchMoment<T, S, B>(exec: (T, S) -> T, q: Query<T, B>, cs: seq<State<T, S, B>>, acts: seq<Act<T, S>>, i: nat, j: nat, sql: string, snap: nat, seen: T)
    requires Run(exec, q, cs, acts) == true && i <= j < |cs| && SnapWithin(cs, i, j, snap)
    requires q.tableOf(sql) in cs[i].w.tabs && q.tableOf(sql) in cs[j].w.disk && 1 <= snap <= |cs[j].w.log| + 1
    requires seen == At(exec, cs[j].w, q.tableOf(sql), snap)
    ensures AnswerWithin(q, cs, i, j, sql, q.answer(sql, seen)) == true
  {
    var m :| i <= m <= j && m < |cs| && cs[m].w.curVer == snap;
    RunGrows(exec, q, cs, acts, i, m);
    HeadSeenLater(exec, q, cs, acts, m, j, q.tableOf(sql));
    assert IsHeadAnswer(q, cs[m], sql, q.answer(sql, seen));
  }

  /** Request r is as it was, with its handle. */
  ghost predicate Stays<T, S, B>(c: State<T, S, B>, c': State<T, S, B>, r: nat) {
    && r in c.reqs && r in c'.reqs && c'.reqs[r] == c.reqs[r]
    && (forall h :: Owns(c.reqs[r], h) ==> h in c.w.live && h in c'.w.live && c'.w.live[h] == c.w.live[h])
  }

  /** Request r moves on, other than by reading rows. */
  ghost predicate Advances<T, S, B>(c: State<T, S, B>, c': State<T, S, B>, r: nat) {
    && r in c.reqs && r in c'.reqs && c'.reqs[r].sql == c.reqs[r].sql && c'.reqs[r].ver == c.reqs[r].ver
    && match c'.reqs[r].phase
       case Missed => true
       case Snapped(h) => h in c'.w.live && c'.w.live[h] == c'.w.curVer
       case Picked(h, p) => Owns(c.reqs[r], h) && h in c.w.live && h in c'.w.live && c'.w.live[h] == c.w.live[h]
       case Answered(body) => c.reqs[r].phase.Fetched? && c.reqs[r].phase.body == body
       case _ => false
  }

  lemma DbStays<T, S, B>(exec: (T, S) -> T, q: Query<T, B>, c: State<T, S, B>, c': State<T, S, B>, step: Step<T, S>, r: nat)
    requires ReqsOk(q, c) && DoDb(exec, c, c', step) && r in c.reqs
    ensures Stays(c, c', r) == true
  {
    assert ReqInv(q, c.w, c.reqs[r]);
    forall h | Owns(c.reqs[r], h) ensures h in c.w.live && h in c'.w.live && c'.w.live[h] == c.w.live[h] {
      VersionRuns.StepLive(exec, c.w, c'.w, step, h);
      VersionRuns.StepFrame(exec, c.w, c'.w, step, h);
    }
  }

  /** A step on behalf of another request. */
  lemma OtherStays<T, S, B>(q: Query<T, B>, c: State<T, S, B>, c': State<T, S, B>, s: nat, r: nat)
    requires ReqsOk(q, c) && OneReq(c, c', s) && r in c.reqs && r in c'.reqs && r != s
    ensures Stays(c, c', r) == true
  {
    assert ReqInv(q, c.w, c.reqs[r]);
  }

  lemma TakeSnapMoves<T, S, B>(q: Query<T, B>, c: State<T, S, B>, c': State<T, S, B>, s: nat, h: nat, r: nat)
    requires ReqsOk(q, c) == true && Moved(c, c', s, Snapped(h)) && c.reqs[s].phase.Missed? && r in c'.reqs
    requires h !in c.w.live && c'.w.live == c.w.live[h := c.w.curVer] && c'.w.tabs == c.w.tabs && c'.w.curVer == c.w.curVer
    ensures Stays(c, c', r) == true || Advances(c, c', r) == true
  {
    if r != s {
      OtherStays(q, c, c', s, r);
    }
  }

  lemma FinishMoves<T, S, B>(q: Query<T, B>, c: State<T, S, B>, c': State<T, S, B>, s: nat, r: nat)
    requires ReqsOk(q, c) == true && s in c.reqs && c.reqs[s].phase.Fetched? && Moved(c, c', s, Answered(c.reqs[s].phase.body)) && r in c'.reqs
    requires c'.w.live == c.w.live - {c.reqs[s].phase.h} && c'.w.tabs == c.w.tabs
    ensures Stays(c, c', r) == true || Advances(c, c', r) == true
  {
    if r != s {
      OtherStays(q, c, c', s, r);
    }
  }

  lemma MissMoves<T, S, B>(q: Query<T, B>, c: State<T, S, B>, c': State<T, S, B>, s: nat, r: nat)
    requires ReqsOk(q, c) == true && c'.w == c.w && Moved(c, c', s, Missed) && r in c'.reqs
    ensures Stays(c, c', r) == true || Advances(c, c', r) == true
  {
    if r != s {
      OtherStays(q, c, c', s, r);
    }
  }

  lemma PickMoves<T, S, B>(q: Query<T, B>, c: State<T, S, B>, c': State<T, S, B>, s: nat, r: nat)
    requires ReqsOk(q, c) == true && DoPick(q, c, c', s) && r in c'.reqs
    ensures Stays(c, c', r) == true || Advances(c, c', r) == true
  {
    if r != s {
      OtherStays(q, c, c', s, r);
    }
  }

  lemma FetchMoves<T, S, B>(q: Query<T, B>, c: State<T, S, B>, c': State<T, S, B>, s: nat, seen: T, r: nat)
    requires ReqsOk(q, c) == true && DoFetch(q, c, c', s, seen) && r in c'.reqs
    ensures r == s || Stays(c, c', r) == true
  {
    if r != s {
      OtherStays(q, c, c', s, r);
    }
  }

  /** Steps that leave the world and request r alone. */
  lemma QuietStays<T, S, B>(q: Query<T, B>, c: State<T, S, B>, c': State<T, S, B>, r: nat)
    requires ReqsOk(q, c) && c'.w == c.w && r in c.reqs && r in c'.reqs && c'.reqs[r] == c.reqs[r]
    ensures Stays(c, c', r) == true
  {
    assert ReqInv(q, c.w, c.reqs[r]);
  }

  /** What a step can do to a request that is there afterwards. */
  lemma Moves<T, S, B>(exec: (T, S) -> T, q: Query<T, B>, c: State<T, S, B>, c': State<T, S, B>, act: Act<T, S>, r: nat)
    requires Inv(exec, c.w) == true && ReqsOk(q, c) == true && Step1(exec, q, c, c', act) == true && r in c'.reqs
    ensures || Stays(c, c', r) == true
            || Advances(c, c', r) == true
            || (act.Fetch? && act.r == r && DoFetch(q, c, c', r, act.seen) == true)
            || (act.ReadVer? && act.r == r && DoReadVer(q, c, c', r, act.sql) == true)
  {
    match act
    case Db(step) => DbStays(exec, q, c, c', step, r);
    case TakeSnap(s, h) => SnapStep(exec, c.w, c'.w, h); TakeSnapMoves(q, c, c', s, h, r);
    case Finish(s) => ReleaseStep(exec, c.w, c'.w, c.reqs[s].phase.h); FinishMoves(q, c, c', s, r);
    case Pick(s) => PickMoves(q, c, c', s, r);
    case Fetch(s, seen) => FetchMoves(q, c, c', s, seen, r);
    case ReadVer(s, sql) => if s != r { QuietStays(q, c, c', r); }
    case Hit(s) => QuietStays(q, c, c', r);
    case Miss(s) => MissMoves(q, c, c', s, r);
    case Store(s, keep) => QuietStays(q, c, c', r);
    case Evict(key) => QuietStays(q, c, c', r);
  }

  lemma StaysTraced<T, S, B>(q: Query<T, B>, cs: seq<State<T, S, B>>, acts: seq<Act<T, S>>, i: nat, j: nat, r: nat)
    requires j + 1 < |cs| && Traced(q, cs, acts, i, j, r) && Stays(cs[j], cs[j + 1], r)
    ensures Traced(q, cs, acts, i, j + 1, r) == true
  {
    var req := cs[j].reqs[r];
    forall h | Owns(req, h) ensures h in cs[j + 1].w.live && SnapWithin(cs, i, j + 1, cs[j + 1].w.live[h]) {
      SnapLater(cs, i, j, cs[j].w.live[h]);
    }
    if req.phase.Fetched? || req.phase.Answered? {
      AnswerLater(q, cs, i, j, req.sql, req.phase.body);
    }
  }

  lemma AdvancesTraced<T, S, B>(q: Query<T, B>, cs: seq<State<T, S, B>>, acts: seq<Act<T, S>>, i: nat, j: nat, r: nat)
    requires j + 1 < |cs| && Traced(q, cs, acts, i, j, r) && Advances(cs[j], cs[j + 1], r)
    ensures Traced(q, cs, acts, i, j + 1, r) == true
  {
    var req' := cs[j + 1].reqs[r];
    forall h | Owns(req', h) ensures h in cs[j + 1].w.live && SnapWithin(cs, i, j + 1, cs[j + 1].w.live[h]) {
      if req'.phase.Picked? {
        SnapLater(cs, i, j, cs[j].w.live[h]);
      }
    }
    if req'.phase.Answered? {
      AnswerLater(q, cs, i, j, req'.sql, req'.phase.body);
    }
  }

  lemma FetchTraced<T, S, B>(q: Query<T, B>, cs: seq<State<T, S, B>>, acts: seq<Act<T, S>>, i: nat, j: nat, r: nat, seen: T)
    requires j + 1 < |cs| && Traced(q, cs, acts, i, j, r) && DoFetch(q, cs[j], cs[j + 1], r, seen)
    requires AnswerWithin(q, cs, i, j, cs[j].reqs[r].sql, q.answer(cs[j].reqs[r].sql, seen)) == true
    ensures Traced(q, cs, acts, i, j + 1, r) == true
  {
    var req := cs[j].reqs[r];
    assert Owns(req, req.phase.h);
    AnswerLater(q, cs, i, j, req.sql, q.answer(req.sql, seen));
    SnapLater(cs, i, j, cs[j].w.live[req.phase.h]);
  }

  lemma FetchAnswers<T, S, B>(exec: (T, S) -> T, q: Query<T, B>, cs: seq<State<T, S, B>>, acts: seq<Act<T, S>>, i: nat, j: nat, r: nat, seen: T)
    requires Run(exec, q, cs, acts) == true && j + 1 < |cs| && DoFetch(q, cs[j], cs[j + 1], r, seen) == true
    requires Traced(q, cs, acts, i, j, r) == true
    ensures r in cs[j].reqs && AnswerWithin(q, cs, i, j, cs[j].reqs[r].sql, q.answer(cs[j].reqs[r].sql, seen)) == true
  {
    var req := cs[j].reqs[r];
    RunInv(exec, q, cs, acts, j);
    FetchSees(exec, q, cs[j], cs[j + 1], r, seen);
    assert Owns(req, req.phase.h);
    FetchMoment(exec, q, cs, acts, i, j, req.sql, cs[j].w.live[req.phase.h], seen);
  }

  /** Every request in progress asked at some moment, and whatever answer it carries
      was right at some moment since. */
  lemma {:induction false} RequestHistory<T, S, B>(exec: (T, S) -> T, q: Query<T, B>, cs: seq<State<T, S, B>>, acts: seq<Act<T, S>>, j: nat, r: nat) returns (i: nat)
    requires Run(exec, q, cs, acts) == true && j < |cs| && r in cs[j].reqs
    ensures Traced(q, cs, acts, i, j, r) == true
    decreases j
  {
    if j == 0 {
      assert false;
    }
    StepMoves(exec, q, cs, acts, j - 1, r);
    if acts[j - 1].ReadVer? && acts[j - 1].r == r {
      i := j - 1;
      ReadVerTraced(q, cs, acts, i, r, acts[i].sql);
    } else {
      i := RequestHistory(exec, q, cs, acts, j - 1, r);
      if Stays(cs[j - 1], cs[j], r) {
        StaysTraced(q, cs, acts, i, j - 1, r);
      } else if Advances(cs[j - 1], cs[j], r) {
        AdvancesTraced(q, cs, acts, i, j - 1, r);
      } else {
        FetchAnswers(exec, q, cs, acts, i, j - 1, r, acts[j - 1].seen);
        FetchTraced(q, cs, acts, i, j - 1, r, acts[j - 1].seen);
      }
    }
  }

  lemma StepMoves<T, S, B>(exec: (T, S) -> T, q: Query<T, B>, cs: seq<State<T, S, B>>, acts: seq<Act<T, S>>, j: nat, r: nat)
    requires Run(exec, q, cs, acts) == true && j + 1 < |cs| && r in cs[j + 1].reqs
    ensures |acts| == |cs| - 1
    ensures acts[j].ReadVer? && acts[j].r == r ==> DoReadVer(q, cs[j], cs[j + 1], r, acts[j].sql) == true
    ensures !(acts[j].ReadVer? && acts[j].r == r) ==>
              r in cs[j].reqs && (|| Stays(cs[j], cs[j + 1], r) == true || Advances(cs[j], cs[j + 1], r) == true
                                  || (acts[j].Fetch? && DoFetch(q, cs[j], cs[j + 1], r, acts[j].seen) == true))
  {
    assert StepAt(exec, q, cs, acts, j);
    RunInv(exec, q, cs, acts, j);
    Moves(exec, q, cs[j], cs[j + 1], acts[j], r);
  }

  lemma ReadVerTraced<T, S, B>(q: Query<T, B>, cs: seq<State<T, S, B>>, acts: seq<Act<T, S>>, i: nat, r: nat, sql: string)
    requires i + 1 < |cs| && i < |acts| && acts[i] == ReadVer(r, sql) && DoReadVer(q, cs[i], cs[i + 1], r, sql)
    ensures Traced(q, cs, acts, i, i + 1, r) == true
  {
  }

  /** A cached body was computed for a head at or after the one its tag names. */
  ghost predicate Stored<T, S, B>(q: Query<T, B>, cs: seq<State<T, S, B>>, i: nat, j: nat, sql: string, e: Entry<B>) {
    i <= j && i < |cs| && HeadVer(q, cs[i], sql, e.tag) && AnswerWithin(q, cs, i, j, sql, e.body)
  }

  lemma CacheSource<T, S, B>(exec: (T, S) -> T, q: Query<T, B>, c: State<T, S, B>, c': State<T, S, B>, act: Act<T, S>, sql: string)
    requires Step1(exec, q, c, c', act) && sql in c'.cache
    ensures || (sql in c.cache && c'.cache[sql] == c.cache[sql])
            || (act.Store? && act.r in c.reqs && c.reqs[act.r].sql == sql && c.reqs[act.r].phase.Answered?
                && c'.cache[sql] == Entry(c.reqs[act.r].ver, c.reqs[act.r].phase.body))
  {
  }

  lemma {:induction false} EntryHistory<T, S, B>(exec: (T, S) -> T, q: Query<T, B>, cs: seq<State<T, S, B>>, acts: seq<Act<T, S>>, j: nat, sql: string) returns (i: nat)
    requires Run(exec, q, cs, acts) == true && j < |cs| && sql in cs[j].cache
    ensures Stored(q, cs, i, j, sql, cs[j].cache[sql]) == true
    decreases j
  {
    if j == 0 {
      assert false;
    } else {
      assert StepAt(exec, q, cs, acts, j - 1);
      CacheSource(exec, q, cs[j - 1], cs[j], acts[j - 1], sql);
      if sql in cs[j - 1].cache && cs[j].cache[sql] == cs[j - 1].cache[sql] {
        i := EntryHistory(exec, q, cs, acts, j - 1, sql);
      } else {
        i := RequestHistory(exec, q, cs, acts, j - 1, acts[j - 1].r);
      }
      AnswerLater(q, cs, i, j - 1, sql, cs[j].cache[sql].body);
    }
  }

  /** Two moments with the same head version have the same head, and so has every
      moment between them. */
  lemma SameVersionSameHead<T, S, B>(exec: (T, S) -> T, q: Query<T, B>, cs: seq<State<T, S, B>>, acts: seq<Act<T, S>>, i: nat, m: nat, k: nat, t: string)
    requires Run(exec, q, cs, acts) == true && i <= m <= k < |cs| && t in cs[i].w.tabs && t in cs[m].w.tabs && t in cs[k].w.tabs
    requires cs[i].w.tabs[t] != [] && cs[k].w.tabs[t] != [] && cs[m].w.tabs[t] != [] && cs[i].w.tabs[t][0].id == cs[k].w.tabs[t][0].id
    ensures cs[m].w.tabs[t][0].data == cs[k].w.tabs[t][0].data
  {
    RunInv(exec, q, cs, acts, i);
    RunInv(exec, q, cs, acts, k);
    VersionRuns.HeadIsSerial(exec, cs[i].w, t);
    VersionRuns.HeadIsSerial(exec, cs[k].w, t);
    HeadSeenLater(exec, q, cs, acts, m, k, t);
    RunGrows(exec, q, cs, acts, i, m);
    AtUnwritten(exec, cs[k].w, t, cs[m].w.curVer, cs[k].w.curVer);
  }

  /** Cache hits are linearizable: the body a hit returns is the query's answer on the
      data that was the table's head at some moment between the request's version read
      and its lookup, whatever commits, evictions and other requests came between, and
      although the entry may carry the answer of a later snapshot under an older tag. */
  lemma HitIsLinearizable<T, S, B>(exec: (T, S) -> T, q: Query<T, B>, cs: seq<State<T, S, B>>, acts: seq<Act<T, S>>, j: nat, r: nat) returns (i: nat)
    requires Run(exec, q, cs, acts) == true && j < |acts| && acts[j] == Hit(r)
    ensures r in cs[j].reqs && cs[j].reqs[r].sql in cs[j].cache
    ensures i < j && acts[i] == ReadVer(r, cs[j].reqs[r].sql)
    ensures AnswerWithin(q, cs, i, j, cs[j].reqs[r].sql, cs[j].cache[cs[j].reqs[r].sql].body) == true
  {
    assert StepAt(exec, q, cs, acts, j);
    var sql := cs[j].reqs[r].sql;
    i := RequestHistory(exec, q, cs, acts, j, r);
    var i0 := EntryHistory(exec, q, cs, acts, j, sql);
    HitMoment(exec, q, cs, acts, i0, i, j, sql, cs[j].cache[sql]);
  }

  lemma HitMoment<T, S, B>(exec: (T, S) -> T, q: Query<T, B>, cs: seq<State<T, S, B>>, acts: seq<Act<T, S>>, i0: nat, i: nat, j: nat, sql: string, e: Entry<B>)
    requires Run(exec, q, cs, acts) == true && i < j < |cs| && Stored(q, cs, i0, j, sql, e) && HeadVer(q, cs[i], sql, e.tag)
    ensures AnswerWithin(q, cs, i, j, sql, e.body) == true
  {
    var m :| i0 <= m <= j && m < |cs| && IsHeadAnswer(q, cs[m], sql, e.body);
    if m < i {
      SameVersionSameHead(exec, q, cs, acts, i0, m, i, q.tableOf(sql));
      assert IsHeadAnswer(q, cs[i], sql, e.body);
    }
  }

  /** So are answers computed on a miss. */
  lemma MissIsLinearizable<T, S, B>(exec: (T, S) -> T, q: Query<T, B>, cs: seq<State<T, S, B>>, acts: seq<Act<T, S>>, j: nat, r: nat) returns (i: nat)
    requires Run(exec, q, cs, acts) == true && j < |cs| && r in cs[j].reqs && cs[j].reqs[r].phase.Answered?
    ensures i < j && acts[i] == ReadVer(r, cs[j].reqs[r].sql)
    ensures AnswerWithin(q, cs, i, j, cs[j].reqs[r].sql, cs[j].reqs[r].phase.body) == true
  {
    i := RequestHistory(exec, q, cs, acts, j, r);
  }
}
