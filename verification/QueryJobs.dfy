/** Requests that hand their reads to the database pool: the parallel branch of do_batch
    and page_run_parallel in src/api/route.c, together with the pool of src/thr/pool.c
    and the table versions below it.

    A request takes a snapshot, submits jobs that read through it, waits for the jobs'
    done flags and releases the snapshot.  Requests, workers and every other activity of
    the database interleave freely. */
module QueryJobs {
  import opened Basics
  import opened Versions
  import VersionRuns
  import PoolRuns
  import Requests

  /** QJob: the snapshot it reads through, and the request that waits for it. */
  datatype Job = Job(h: nat, owner: nat)

  /** A request: its snapshot handle, how many jobs it wants, those the pool took so far,
      how many of them it has waited for, and whether the pool refused one. */
  datatype Req = Req(h: nat, wanted: nat, sent: seq<nat>, waited: nat, refused: bool)

  /** Where a request stands in the order of sending, waiting and releasing. */
  function StageOf(q: Req): Requests.Stage {
    Requests.Stage(|q.sent|, q.waited, q.refused, false)
  }

  ghost predicate May(q: Req, e: Requests.Event) {
    Requests.Advance(StageOf(q), e, q.wanted).Some?
  }

  datatype State<T, S> = State(
    db: World<T, S>,
    pool: PoolRuns.Pool,      // the database pool
    jobs: map<nat, Job>,      // every job ever accepted
    flags: set<nat>,          // jobs whose done flag is set
    reqs: map<nat, Req>)      // requests in progress

  datatype Act<T, S> =
    | Db(step: Step<T, S>)                                      // anything else the database does
    | Open(r: nat, h: nat, wanted: nat)                         // db_snap at the start of a request
    | Submit(r: nat, job: nat, code: int, woken: set<nat>)      // pool_add
    | Pool(turn: PoolRuns.Step)                                 // a worker, a wake-up, or pool_stop
    | Flag(w: nat)                                              // the end of qjob_run
    | Wait(r: nat)                                              // qjob_wait returns
    | Close(r: nat)                                             // db_done

  // ------------------------------------------------------------ steps

  ghost predicate Init0<T, S>(j: State<T, S>) {
    Init(j.db) && PoolRuns.Init(j.pool) && j.jobs == map[] && j.flags == {} && j.reqs == map[]
  }

  /** Any step of the database that does not release a request's snapshot. */
  ghost predicate DoDb<T, S>(exec: (T, S) -> T, j: State<T, S>, j': State<T, S>, step: Step<T, S>) {
    && Next(exec, j.db, j'.db, step) && j' == j.(db := j'.db)
    && (step.Release? ==> forall r :: r in j.reqs ==> j.reqs[r].h != step.h)
  }

  ghost predicate DoOpen<T, S>(exec: (T, S) -> T, j: State<T, S>, j': State<T, S>, r: nat, h: nat, wanted: nat) {
    && r !in j.reqs && Next(exec, j.db, j'.db, Snap(h))
    && j' == j.(db := j'.db, reqs := j.reqs[r := Req(h, wanted, [], 0, false)])
  }

  /** A new job is handed to the pool, which takes it or not. */
  ghost predicate DoSubmit<T, S>(j: State<T, S>, j': State<T, S>, r: nat, job: nat, code: int, woken: set<nat>) {
    && r in j.reqs && May(j.reqs[r], if code == 0 then Requests.Submit(|j.reqs[r].sent|) else Requests.Refused) && job !in j.jobs
    && PoolRuns.Next(j.pool, j'.pool, PoolRuns.Add(job, code, woken))
    && j' == j.(pool := j'.pool,
                jobs := if code == 0 then j.jobs[job := Job(j.reqs[r].h, r)] else j.jobs,
                reqs := j.reqs[r := if code == 0 then j.reqs[r].(sent := j.reqs[r].sent + [job]) else j.reqs[r].(refused := true)])
  }

  /** The worker comes back from a job only after qjob_run has set its flag. */
  ghost predicate DoPool<T, S>(j: State<T, S>, j': State<T, S>, step: PoolRuns.Step) {
    && !step.Add? && PoolRuns.Next(j.pool, j'.pool, step) && j' == j.(pool := j'.pool)
    && (step.Finish? && step.w < |j.pool.workers| && j.pool.workers[step.w].Running? ==> j.pool.workers[step.w].job in j.flags)
  }

  ghost predicate DoFlag<T, S>(j: State<T, S>, j': State<T, S>, w: nat) {
    && w < |j.pool.workers| && j.pool.workers[w].Running? && j.pool.workers[w].job !in j.flags
    && j' == j.(flags := j.flags + {j.pool.workers[w].job})
  }

  /** qjob_wait returns when the flag of the next job is set. */
  ghost predicate DoWait<T, S>(j: State<T, S>, j': State<T, S>, r: nat) {
    && r in j.reqs && May(j.reqs[r], Requests.Wait(j.reqs[r].waited)) && j.reqs[r].sent[j.reqs[r].waited] in j.flags
    && j' == j.(reqs := j.reqs[r := j.reqs[r].(waited := j.reqs[r].waited + 1)])
  }

  /** The snapshot is released when every job sent has been waited for, and all were sent
      or one was refused. */
  ghost predicate DoClose<T, S>(exec: (T, S) -> T, j: State<T, S>, j': State<T, S>, r: nat) {
    && r in j.reqs && May(j.reqs[r], Requests.Release)
    && Next(exec, j.db, j'.db, Release(j.reqs[r].h)) && j' == j.(db := j'.db, reqs := j.reqs - {r})
  }

  ghost predicate Step1<T, S>(exec: (T, S) -> T, j: State<T, S>, j': State<T, S>, act: Act<T, S>) {
    match act
    case Db(step) => DoDb(exec, j, j', step)
    case Open(r, h, wanted) => DoOpen(exec, j, j', r, h, wanted)
    case Submit(r, job, code, woken) => DoSubmit(j, j', r, job, code, woken)
    case Pool(step) => DoPool(j, j', step)
    case Flag(w) => DoFlag(j, j', w)
    case Wait(r) => DoWait(j, j', r)
    case Close(r) => DoClose(exec, j, j', r)
  }

  ghost predicate StepAt<T, S>(exec: (T, S) -> T, js: seq<State<T, S>>, acts: seq<Act<T, S>>, i: nat) {
    i < |acts| && i + 1 < |js| && Step1(exec, js[i], js[i + 1], acts[i])
  }

  ghost predicate Run<T, S>(exec: (T, S) -> T, js: seq<State<T, S>>, acts: seq<Act<T, S>>) {
    |js| == |acts| + 1 && Init0(js[0]) && forall i :: 0 <= i < |acts| ==> StepAt(exec, js, acts, i)
  }

  // ------------------------------------------------------------ invariant

  ghost predicate ReqOk(live: map<nat, nat>, jobs: map<nat, Job>, flags: set<nat>, r: nat, q: Req) {
    && q.h in live && q.waited <= |q.sent|
    && (forall k :: 0 <= k < |q.sent| ==> q.sent[k] in jobs && jobs[q.sent[k]] == Job(q.h, r))
    && (forall k :: 0 <= k < q.waited ==> q.sent[k] in flags)
  }

  ghost predicate ReqsOk(live: map<nat, nat>, jobs: map<nat, Job>, flags: set<nat>, reqs: map<nat, Req>) {
    && (forall r :: r in reqs ==> ReqOk(live, jobs, flags, r, reqs[r]))
    && (forall r, s :: r in reqs && s in reqs && r != s ==> reqs[r].h != reqs[s].h)
  }

  /** A job whose flag is not set has its request still there, waiting for it. */
  ghost predicate JobsOk(jobs: map<nat, Job>, flags: set<nat>, reqs: map<nat, Req>) {
    forall x :: x in jobs && x !in flags ==> jobs[x].owner in reqs && x in reqs[jobs[x].owner].sent
  }

  ghost predicate PoolOk(pool: PoolRuns.Pool, jobs: map<nat, Job>, flags: set<nat>) {
    && (forall x :: x in pool.accepted ==> x in jobs)
    && (forall x :: x in jobs ==> multiset(pool.accepted)[x] == 1)
    && (forall x :: x in pool.finished ==> x in flags) && (forall x :: x in flags ==> x in jobs)
  }

  ghost predicate Linked<T, S>(j: State<T, S>) {
    && ReqsOk(j.db.live, j.jobs, j.flags, j.reqs) && JobsOk(j.jobs, j.flags, j.reqs) && PoolOk(j.pool, j.jobs, j.flags)
  }

  lemma DbLinked<T, S>(exec: (T, S) -> T, j: State<T, S>, j': State<T, S>, step: Step<T, S>)
    requires Linked(j) && DoDb(exec, j, j', step)
    ensures Linked(j') == true
  {
    forall r | r in j.reqs ensures ReqOk(j'.db.live, j.jobs, j.flags, r, j.reqs[r]) {
      VersionRuns.StepLive(exec, j.db, j'.db, step, j.reqs[r].h);
    }
  }

  lemma SnapLive<T, S>(exec: (T, S) -> T, w: World<T, S>, w': World<T, S>, h: nat)
    requires Next(exec, w, w', Snap(h))
    ensures h !in w.live && w'.live == w.live[h := w.curVer]
  {
  }

  lemma ReleaseLive<T, S>(exec: (T, S) -> T, w: World<T, S>, w': World<T, S>, h: nat)
    requires Next(exec, w, w', Release(h))
    ensures h in w.live && w'.live == w.live - {h}
  {
  }

  lemma OpenReqs(live: map<nat, nat>, jobs: map<nat, Job>, flags: set<nat>, reqs: map<nat, Req>, r: nat, h: nat, id: nat, wanted: nat)
    requires ReqsOk(live, jobs, flags, reqs) && r !in reqs && h !in live
    ensures ReqsOk(live[h := id], jobs, flags, reqs[r := Req(h, wanted, [], 0, false)]) == true
  {
    forall s | s in reqs ensures ReqOk(live[h := id], jobs, flags, s, reqs[s]) && reqs[s].h != h {
      assert ReqOk(live, jobs, flags, s, reqs[s]);
    }
  }

  lemma OpenLinked<T, S>(j: State<T, S>, j': State<T, S>, r: nat, h: nat, wanted: nat)
    requires Linked(j) == true && r !in j.reqs && h !in j.db.live && j'.db.live == j.db.live[h := j.db.curVer]
    requires j' == j.(db := j'.db, reqs := j.reqs[r := Req(h, wanted, [], 0, false)])
    ensures Linked(j') == true
  {
    OpenReqs(j.db.live, j.jobs, j.flags, j.reqs, r, h, j.db.curVer, wanted);
    assert JobsOk(j'.jobs, j'.flags, j'.reqs);
  }

  lemma SubmitReqs(live: map<nat, nat>, jobs: map<nat, Job>, flags: set<nat>, reqs: map<nat, Req>, r: nat, job: nat)
    requires ReqsOk(live, jobs, flags, reqs) && JobsOk(jobs, flags, reqs) && r in reqs && job !in jobs
    ensures ReqsOk(live, jobs[job := Job(reqs[r].h, r)], flags, reqs[r := reqs[r].(sent := reqs[r].sent + [job])]) == true
    ensures JobsOk(jobs[job := Job(reqs[r].h, r)], flags, reqs[r := reqs[r].(sent := reqs[r].sent + [job])]) == true
  {
    var jobs', reqs' := jobs[job := Job(reqs[r].h, r)], reqs[r := reqs[r].(sent := reqs[r].sent + [job])];
    forall s | s in reqs' ensures ReqOk(live, jobs', flags, s, reqs'[s]) && reqs'[s].h == reqs[s].h {
      assert ReqOk(live, jobs, flags, s, reqs[s]);
    }
  }

  lemma RefusedReqs(live: map<nat, nat>, jobs: map<nat, Job>, flags: set<nat>, reqs: map<nat, Req>, r: nat)
    requires ReqsOk(live, jobs, flags, reqs) && JobsOk(jobs, flags, reqs) && r in reqs
    ensures ReqsOk(live, jobs, flags, reqs[r := reqs[r].(refused := true)]) == true && JobsOk(jobs, flags, reqs[r := reqs[r].(refused := true)]) == true
  {
    var reqs' := reqs[r := reqs[r].(refused := true)];
    forall s | s in reqs' ensures ReqOk(live, jobs, flags, s, reqs'[s]) && reqs'[s].h == reqs[s].h {
      assert ReqOk(live, jobs, flags, s, reqs[s]);
    }
  }

  lemma SubmitPool(p: PoolRuns.Pool, p': PoolRuns.Pool, jobs: map<nat, Job>, flags: set<nat>, job: nat, x: Job)
    requires PoolOk(p, jobs, flags) && job !in jobs && p'.accepted == p.accepted + [job] && p'.finished == p.finished
    ensures PoolOk(p', jobs[job := x], flags) == true
  {
    assert job !in p.accepted;
    assert multiset(p'.accepted) == multiset(p.accepted) + multiset{job};
  }

  lemma SubmitLinked<T, S>(j: State<T, S>, j': State<T, S>, r: nat, job: nat, code: int, woken: set<nat>)
    requires Linked(j) == true && DoSubmit(j, j', r, job, code, woken)
    ensures Linked(j') == true
  {
    if code == 0 {
      SubmitReqs(j.db.live, j.jobs, j.flags, j.reqs, r, job);
      SubmitPool(j.pool, j'.pool, j.jobs, j.flags, job, Job(j.reqs[r].h, r));
    } else {
      RefusedReqs(j.db.live, j.jobs, j.flags, j.reqs, r);
    }
  }

  lemma PoolFrame(p: PoolRuns.Pool, p': PoolRuns.Pool, step: PoolRuns.Step)
    requires !step.Add? && PoolRuns.Next(p, p', step)
    ensures p'.accepted == p.accepted
    ensures forall x :: x in p'.finished ==> x in p.finished || (step.Finish? && p.workers[step.w] == PoolRuns.Running(x))
  {
  }

  lemma PoolLinked<T, S>(j: State<T, S>, j': State<T, S>, step: PoolRuns.Step)
    requires Linked(j) && DoPool(j, j', step)
    ensures Linked(j') == true
  {
    PoolFrame(j.pool, j'.pool, step);
  }

  /** A running job was accepted, and is not counted as finished. */
  lemma InHandAccepted(p: PoolRuns.Pool, w: nat)
    requires PoolRuns.Inv(p) && w < |p.workers| && p.workers[w].Running?
    ensures p.workers[w].job in p.accepted
    ensures p.finished[p.workers[w].job] < multiset(p.accepted)[p.workers[w].job]
  {
    var x := p.workers[w].job;
    InHandHas(p.workers, w);
    assert multiset(p.accepted) == multiset(p.started) + multiset(p.queue);
    assert x in multiset(p.accepted);
  }

  lemma {:induction false} InHandHas(ws: seq<PoolRuns.Worker>, w: nat)
    requires w < |ws| && ws[w].Running?
    ensures PoolRuns.InHand(ws)[ws[w].job] > 0
  {
    var n := |ws| - 1;
    if w < n {
      InHandHas(ws[..n], w);
      assert ws[..n][w] == ws[w];
    }
  }

  lemma FlagLinked<T, S>(j: State<T, S>, j': State<T, S>, w: nat)
    requires Linked(j) && PoolRuns.Inv(j.pool) && DoFlag(j, j', w)
    ensures Linked(j') == true
  {
    InHandAccepted(j.pool, w);
    forall s | s in j'.reqs ensures ReqOk(j'.db.live, j'.jobs, j'.flags, s, j'.reqs[s]) {
      assert ReqOk(j.db.live, j.jobs, j.flags, s, j.reqs[s]);
    }
  }

  lemma WaitLinked<T, S>(j: State<T, S>, j': State<T, S>, r: nat)
    requires Linked(j) && DoWait(j, j', r)
    ensures Linked(j') == true
  {
    forall s | s in j'.reqs ensures ReqOk(j'.db.live, j'.jobs, j'.flags, s, j'.reqs[s]) {
      assert ReqOk(j.db.live, j.jobs, j.flags, s, j.reqs[s]);
    }
  }

  lemma CloseLinked<T, S>(j: State<T, S>, j': State<T, S>, r: nat)
    requires Linked(j) && r in j.reqs && j.reqs[r].waited == |j.reqs[r].sent|
    requires j'.db.live == j.db.live - {j.reqs[r].h} && j' == j.(db := j'.db, reqs := j.reqs - {r})
    ensures Linked(j') == true
  {
    forall s | s in j'.reqs ensures ReqOk(j'.db.live, j'.jobs, j'.flags, s, j'.reqs[s]) {
      assert ReqOk(j.db.live, j.jobs, j.flags, s, j.reqs[s]);
    }
    forall x | x in j.jobs && x !in j.flags ensures j.jobs[x].owner != r {
      assert ReqOk(j.db.live, j.jobs, j.flags, r, j.reqs[r]);
    }
  }

  lemma Step1Linked<T, S>(exec: (T, S) -> T, j: State<T, S>, j': State<T, S>, act: Act<T, S>)
    requires PoolRuns.Inv(j.pool) == true && Linked(j) == true && Step1(exec, j, j', act) == true
    ensures Linked(j') == true
  {
    match act
    case Db(step) => DbLinked(exec, j, j', step);
    case Open(r, h, wanted) =>
      SnapLive(exec, j.db, j'.db, h);
      OpenLinked(j, j', r, h, wanted);
    case Submit(r, job, code, woken) => SubmitLinked(j, j', r, job, code, woken);
    case Pool(turn) => PoolLinked(j, j', turn);
    case Flag(w) => FlagLinked(j, j', w);
    case Wait(r) => WaitLinked(j, j', r);
    case Close(r) =>
      ReleaseLive(exec, j.db, j'.db, j.reqs[r].h);
      CloseLinked(j, j', r);
  }

  lemma Step1Parts<T, S>(exec: (T, S) -> T, j: State<T, S>, j': State<T, S>, act: Act<T, S>)
    requires Inv(exec, j.db) == true && PoolRuns.Inv(j.pool) == true && Step1(exec, j, j', act) == true
    ensures Inv(exec, j'.db) == true && PoolRuns.Inv(j'.pool) == true
  {
    match act
    case Db(step) => VersionRuns.StepInv(exec, j.db, j'.db, step);
    case Open(r, h, wanted) => VersionRuns.StepInv(exec, j.db, j'.db, Snap(h));
    case Submit(r, job, code, woken) => PoolRuns.StepInv(j.pool, j'.pool, PoolRuns.Add(job, code, woken));
    case Pool(turn) => PoolRuns.StepInv(j.pool, j'.pool, turn);
    case Close(r) => VersionRuns.StepInv(exec, j.db, j'.db, Release(j.reqs[r].h));
    case _ =>
  }

  lemma Step1Inv<T, S>(exec: (T, S) -> T, j: State<T, S>, j': State<T, S>, act: Act<T, S>)
    requires Inv(exec, j.db) == true && PoolRuns.Inv(j.pool) == true && Linked(j) == true && Step1(exec, j, j', act) == true
    ensures Inv(exec, j'.db) == true && PoolRuns.Inv(j'.pool) == true && Linked(j') == true
  {
    Step1Linked(exec, j, j', act);
    Step1Parts(exec, j, j', act);
  }

  lemma {:induction false} RunInv<T, S>(exec: (T, S) -> T, js: seq<State<T, S>>, acts: seq<Act<T, S>>, i: nat)
    requires Run(exec, js, acts) == true && i < |js|
    ensures Inv(exec, js[i].db) == true && PoolRuns.Inv(js[i].pool) == true && Linked(js[i]) == true
    decreases i
  {
    if i == 0 {
      VersionRuns.InitInv(exec, js[0].db);
      PoolRuns.InitInv(js[0].pool);
    } else {
      RunInv(exec, js, acts, i - 1);
      assert StepAt(exec, js, acts, i - 1);
      Step1Inv(exec, js[i - 1], js[i], acts[i - 1]);
    }
  }

  // ------------------------------------------------------------ what is promised

  /** Queued, or being run with its flag not yet set: a job that will still read. */
  ghost predicate WillRead<T, S>(j: State<T, S>, x: nat) {
    x !in j.flags && (x in j.pool.queue || exists w :: 0 <= w < |j.pool.workers| && j.pool.workers[w] == PoolRuns.Running(x))
  }

  lemma WillReadAccepted<T, S>(j: State<T, S>, x: nat)
    requires PoolRuns.Inv(j.pool) && Linked(j) && WillRead(j, x)
    ensures x in j.jobs
  {
    if x in j.pool.queue {
      assert x in j.pool.accepted;
    } else {
      var w :| 0 <= w < |j.pool.workers| && j.pool.workers[w] == PoolRuns.Running(x);
      InHandAccepted(j.pool, w);
    }
  }

  /** In every state of every run, a job that will still read finds its snapshot open: the
      request that took it is still waiting, and every loaded table still has the version
      of that snapshot, with the committed data of its moment. */
  lemma JobsReadOpenSnapshots<T, S>(exec: (T, S) -> T, js: seq<State<T, S>>, acts: seq<Act<T, S>>, i: nat, x: nat, t: string)
    requires Run(exec, js, acts) == true && i < |js| && WillRead(js[i], x)
    ensures x in js[i].jobs && js[i].jobs[x].owner in js[i].reqs
    ensures var j := js[i]; var q := j.reqs[j.jobs[x].owner]; q.h == j.jobs[x].h && q.h in j.db.live && x in q.sent
    ensures t in js[i].db.tabs ==>
              var j := js[i]; var id := j.db.live[j.jobs[x].h];
              && t in j.db.disk && 1 <= id <= |j.db.log| + 1 && VersionRuns.Visible(j.db, t, id).Some?
              && VersionRuns.Visible(j.db, t, id).value.data == At(exec, j.db, t, id)
  {
    RunInv(exec, js, acts, i);
    WillReadAccepted(js[i], x);
    OwnerHolds(js[i], x);
    if t in js[i].db.tabs {
      VersionRuns.SnapshotIsConsistent(exec, js[i].db, js[i].jobs[x].h, t);
    }
  }

  lemma OwnerHolds<T, S>(j: State<T, S>, x: nat)
    requires Linked(j) && x in j.jobs && x !in j.flags
    ensures j.jobs[x].owner in j.reqs
    ensures var q := j.reqs[j.jobs[x].owner]; q.h == j.jobs[x].h && q.h in j.db.live && x in q.sent
  {
    var r := j.jobs[x].owner;
    assert ReqOk(j.db.live, j.jobs, j.flags, r, j.reqs[r]);
    var k :| 0 <= k < |j.reqs[r].sent| && j.reqs[r].sent[k] == x;
  }

  /** When a request releases its snapshot, every job it submitted has set its flag. */
  lemma AllDoneAtClose<T, S>(exec: (T, S) -> T, js: seq<State<T, S>>, acts: seq<Act<T, S>>, i: nat, r: nat)
    requires Run(exec, js, acts) == true && i < |acts| && acts[i] == Close(r)
    ensures r in js[i].reqs && forall k :: 0 <= k < |js[i].reqs[r].sent| ==> js[i].reqs[r].sent[k] in js[i].flags
  {
    RunInv(exec, js, acts, i);
    assert StepAt(exec, js, acts, i);
    assert ReqOk(js[i].db.live, js[i].jobs, js[i].flags, r, js[i].reqs[r]);
  }

  // ------------------------------------------------------------ progress

  /** A request blocked in qjob_wait. */
  ghost predicate Blocked<T, S>(j: State<T, S>, r: nat) {
    r in j.reqs && j.reqs[r].waited < |j.reqs[r].sent| && j.reqs[r].sent[j.reqs[r].waited] !in j.flags
  }

  /** A step some database worker can take by itself. */
  ghost predicate WorkerAct<T, S>(act: Act<T, S>) {
    act.Flag? || (act.Pool? && (act.turn.Test? || act.turn.Finish?))
  }

  /** While a request is blocked, some database worker can step: the pool it waits for is
      never stuck, whatever the API workers do. */
  lemma BlockedHasStep<T, S>(exec: (T, S) -> T, js: seq<State<T, S>>, acts: seq<Act<T, S>>, i: nat, r: nat) returns (j': State<T, S>, act: Act<T, S>)
    requires Run(exec, js, acts) == true && i < |js| && Blocked(js[i], r)
    ensures WorkerAct(act) && Step1(exec, js[i], j', act)
  {
    RunInv(exec, js, acts, i);
    var j := js[i];
    var x := j.reqs[r].sent[j.reqs[r].waited];
    BlockedUnfinished(j, r);
    var w := PoolRuns.UnfinishedHasStep(j.pool, x);
    j', act := WorkerSteps(exec, j, w);
  }

  lemma BlockedUnfinished<T, S>(j: State<T, S>, r: nat)
    requires Linked(j) && Blocked(j, r)
    ensures var x := j.reqs[r].sent[j.reqs[r].waited]; j.pool.finished[x] < multiset(j.pool.accepted)[x]
  {
    assert ReqOk(j.db.live, j.jobs, j.flags, r, j.reqs[r]);
    var x := j.reqs[r].sent[j.reqs[r].waited];
    assert x in j.jobs && x !in j.pool.finished;
  }

  lemma WorkerSteps<T, S>(exec: (T, S) -> T, j: State<T, S>, w: nat) returns (j': State<T, S>, act: Act<T, S>)
    requires PoolRuns.Enabled(j.pool, w)
    ensures WorkerAct(act) && Step1(exec, j, j', act) == true
  {
    if j.pool.workers[w].Running? && j.pool.workers[w].job !in j.flags {
      act := Flag(w);
      j' := j.(flags := j.flags + {j.pool.workers[w].job});
    } else {
      var p', turn := PoolRuns.EnabledSteps(j.pool, w);
      act := Pool(turn);
      j' := j.(pool := p');
    }
  }

  /** The workers whose job has not set its flag. */
  ghost function Reading<T, S>(j: State<T, S>): set<nat> {
    set w: nat | w < |j.pool.workers| && j.pool.workers[w].Running? && j.pool.workers[w].job !in j.flags
  }

  /** What the workers still have to do. */
  ghost function Left<T, S>(j: State<T, S>): nat {
    (|j.pool.workers| + 1) * PoolRuns.Work(j.pool) + |Reading(j)|
  }

  lemma ReadingBound<T, S>(j: State<T, S>)
    ensures |Reading(j)| <= |j.pool.workers|
  {
    PoolRuns.InHandSize(j.pool.workers);
    assert Reading(j) <= PoolRuns.RunningOnes(j.pool.workers);
    SubsetSize(Reading(j), PoolRuns.RunningOnes(j.pool.workers));
  }

  /** Every worker step uses some of it up: so between two submissions the workers take
      only so many steps, and a request cannot stay blocked while they take theirs. */
  lemma LeftDecreases<T, S>(exec: (T, S) -> T, j: State<T, S>, j': State<T, S>, act: Act<T, S>)
    requires WorkerAct(act) && Step1(exec, j, j', act)
    ensures Left(j') < Left(j)
  {
    if act.Flag? {
      assert act.w in Reading(j) && act.w !in Reading(j') && Reading(j') <= Reading(j);
      SubsetSize(Reading(j') + {act.w}, Reading(j));
    } else {
      PoolRuns.WorkDecreases(j.pool, j'.pool, act.turn);
      ReadingBound(j');
      assert |j'.pool.workers| == |j.pool.workers|;
      Scaled(|j.pool.workers| + 1, PoolRuns.Work(j'.pool), PoolRuns.Work(j.pool));
    }
  }

  lemma Scaled(n: nat, a: nat, b: nat)
    requires a < b
    ensures n * a + n <= n * b
  {
    assert n * (a + 1) == n * a + n;
    assert n * (a + 1) <= n * b;
  }
}
