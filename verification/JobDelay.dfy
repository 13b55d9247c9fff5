/** How long a request waits for one job (src/thr/pool.c:34-64, src/api/route.c:87-108).

    A job has a delay that no step of any request, worker or transaction raises.  While it
    is queued every step of every worker lowers it; once a worker has it, that worker's next
    step sets its flag. */
module JobDelay {
  import opened Basics
  import opened QueryJobs
  import PoolRuns

  /** How many jobs are in front of x. */
  ghost function Place(queue: seq<nat>, x: nat): nat
    requires x in queue
  {
    if queue[0] == x then 0 else 1 + Place(queue[1..], x)
  }

  /** Three steps for x and each job in front of it, and what the running jobs still take. */
  ghost function Delay<T, S>(j: State<T, S>, x: nat): nat {
    if x in j.flags then 0
    else if x in j.pool.queue then 4 + 3 * Place(j.pool.queue, x) + |PoolRuns.RunningOnes(j.pool.workers)| + |Reading(j)|
    else 1
  }

  lemma {:induction false} PlacePush(queue: seq<nat>, x: nat, y: nat)
    requires x in queue
    ensures Place(queue + [y], x) == Place(queue, x)
    decreases |queue|
  {
    if queue[0] != x {
      PlacePush(queue[1..], x, y);
      assert (queue + [y])[1..] == queue[1..] + [y];
    }
  }

  lemma OnceInQueue<T, S>(j: State<T, S>, x: nat)
    requires PoolRuns.Inv(j.pool) && Linked(j) && x in j.jobs && j.pool.queue != [] && j.pool.queue[0] == x
    ensures x !in j.pool.queue[1..]
  {
    var p := j.pool;
    assert p.queue == [x] + p.queue[1..];
    assert multiset(p.accepted) == multiset(p.started) + (multiset{x} + multiset(p.queue[1..]));
    assert multiset(p.accepted)[x] == 1;
  }

  // ------------------------------------------------------------ one step

  /** The workers that run something are the same, and so are their flags. */
  lemma SameReading<T, S>(j: State<T, S>, j': State<T, S>)
    requires j'.flags == j.flags && |j'.pool.workers| == |j.pool.workers|
    requires forall w :: 0 <= w < |j.pool.workers| && (j.pool.workers[w].Running? || j'.pool.workers[w].Running?) ==> j'.pool.workers[w] == j.pool.workers[w]
    ensures PoolRuns.RunningOnes(j'.pool.workers) == PoolRuns.RunningOnes(j.pool.workers) && Reading(j') == Reading(j)
  {
  }

  lemma SubmitDelay<T, S>(j: State<T, S>, j': State<T, S>, r: nat, job: nat, code: int, woken: set<nat>, x: nat)
    requires DoSubmit(j, j', r, job, code, woken) && x in j.jobs
    ensures Delay(j', x) == Delay(j, x)
  {
    SameReading(j, j');
    if x in j.pool.queue && code == 0 {
      PlacePush(j.pool.queue, x, job);
    }
  }

  lemma TestSets<T, S>(j: State<T, S>, j': State<T, S>, w: nat)
    requires DoPool(j, j', PoolRuns.Test(w)) && j.pool.queue != []
    ensures |PoolRuns.RunningOnes(j'.pool.workers)| == |PoolRuns.RunningOnes(j.pool.workers)| + 1
    ensures |Reading(j')| <= |Reading(j)| + 1
  {
    assert w !in PoolRuns.RunningOnes(j.pool.workers);
    assert PoolRuns.RunningOnes(j'.pool.workers) == PoolRuns.RunningOnes(j.pool.workers) + {w};
    assert Reading(j') <= Reading(j) + {w};
    SubsetSize(Reading(j'), Reading(j) + {w});
  }

  lemma TestDelay<T, S>(j: State<T, S>, j': State<T, S>, w: nat, x: nat)
    requires PoolRuns.Inv(j.pool) == true && Linked(j) == true && DoPool(j, j', PoolRuns.Test(w)) && x in j.jobs && x !in j.flags
    ensures x in j.pool.queue ==> Delay(j', x) < Delay(j, x)
    ensures x !in j.pool.queue ==> Delay(j', x) == 1
  {
    if j.pool.queue != [] {
      TestSets(j, j', w);
      if j.pool.queue[0] == x {
        OnceInQueue(j, x);
      }
    }
  }

  lemma FinishDelay<T, S>(j: State<T, S>, j': State<T, S>, w: nat, x: nat)
    requires DoPool(j, j', PoolRuns.Finish(w)) && x !in j.flags
    ensures x in j.pool.queue ==> Delay(j', x) < Delay(j, x)
    ensures x !in j.pool.queue ==> Delay(j', x) == 1
  {
    assert w in PoolRuns.RunningOnes(j.pool.workers);
    assert PoolRuns.RunningOnes(j'.pool.workers) == PoolRuns.RunningOnes(j.pool.workers) - {w};
    assert Reading(j') == Reading(j);
  }

  lemma FlagDelay<T, S>(j: State<T, S>, j': State<T, S>, w: nat, x: nat)
    requires DoFlag(j, j', w) && x !in j.flags
    ensures x in j.pool.queue ==> Delay(j', x) < Delay(j, x)
    ensures x !in j.pool.queue ==> Delay(j', x) <= 1
  {
    assert w in Reading(j) && Reading(j') <= Reading(j) - {w};
    SubsetSize(Reading(j'), Reading(j) - {w});
  }

  /** No step raises the delay of a job, and worker steps lower it while it is queued. */
  lemma DelayFalls<T, S>(exec: (T, S) -> T, j: State<T, S>, j': State<T, S>, act: Act<T, S>, x: nat)
    requires PoolRuns.Inv(j.pool) == true && Linked(j) == true && Step1(exec, j, j', act) == true && x in j.jobs
    ensures Delay(j', x) <= Delay(j, x)
    ensures WorkerAct(act) && x in j.pool.queue && x !in j.flags ==> Delay(j', x) < Delay(j, x)
  {
    if x !in j.flags {
      match act
      case Submit(r, job, code, woken) => SubmitDelay(j, j', r, job, code, woken, x);
      case Flag(w) => FlagDelay(j, j', w, x);
      case Pool(turn) => PoolDelay(j, j', turn, x);
      case _ => SameReading(j, j');
    }
  }

  lemma PoolDelay<T, S>(j: State<T, S>, j': State<T, S>, turn: PoolRuns.Step, x: nat)
    requires PoolRuns.Inv(j.pool) == true && Linked(j) == true && DoPool(j, j', turn) && x in j.jobs && x !in j.flags
    ensures Delay(j', x) <= Delay(j, x)
    ensures (turn.Test? || turn.Finish?) && x in j.pool.queue ==> Delay(j', x) < Delay(j, x)
  {
    match turn
    case Test(w) => TestDelay(j, j', w, x);
    case Finish(w) => FinishDelay(j, j', w, x);
    case _ => SameReading(j, j');
  }

  /** A worker keeps a job until the job's flag is set. */
  lemma KeepsJob<T, S>(exec: (T, S) -> T, j: State<T, S>, j': State<T, S>, act: Act<T, S>, w: nat)
    requires Step1(exec, j, j', act) && w < |j.pool.workers| && j.pool.workers[w].Running? && j.pool.workers[w].job !in j'.flags
    ensures |j'.pool.workers| == |j.pool.workers| && j'.pool.workers[w] == j.pool.workers[w] && j.flags <= j'.flags
  {
  }

  /** A job is never put back. */
  lemma StaysTaken<T, S>(exec: (T, S) -> T, j: State<T, S>, j': State<T, S>, act: Act<T, S>, x: nat)
    requires Step1(exec, j, j', act) && x in j.jobs
    ensures x in j'.jobs && j.flags <= j'.flags && (x in j'.pool.queue ==> x in j.pool.queue)
  {
  }

  // ------------------------------------------------------------ whole runs

  /** How many of the steps from i up to k are worker steps. */
  ghost function StepCount<T, S>(acts: seq<Act<T, S>>, i: nat, k: nat): nat
    requires i <= k <= |acts|
  {
    if i == k then 0 else StepCount(acts, i, k - 1) + if WorkerAct(acts[k - 1]) then 1 else 0
  }

  /** As long as a job is queued, every worker step counts. */
  lemma {:induction false} QueuedCounts<T, S>(exec: (T, S) -> T, js: seq<State<T, S>>, acts: seq<Act<T, S>>, i: nat, k: nat, x: nat)
    requires Run(exec, js, acts) == true && i <= k < |js| && |js| == |acts| + 1 && x in js[i].jobs
    ensures x in js[k].jobs
    ensures x in js[k].pool.queue && x !in js[k].flags ==> Delay(js[k], x) + StepCount(acts, i, k) <= Delay(js[i], x)
    decreases k
  {
    if i != k {
      var m := k - 1;
      QueuedCounts(exec, js, acts, i, m, x);
      RunInv(exec, js, acts, m);
      assert StepAt(exec, js, acts, m);
      DelayFalls(exec, js[m], js[k], acts[m], x);
      StaysTaken(exec, js[m], js[k], acts[m], x);
    }
  }

  lemma {:induction false} HandHeld(ws: seq<PoolRuns.Worker>, x: nat) returns (w: nat)
    requires x in PoolRuns.InHand(ws)
    ensures w < |ws| && ws[w] == PoolRuns.Running(x)
  {
    var n := |ws| - 1;
    if x in PoolRuns.InHand(ws[..n]) {
      w := HandHeld(ws[..n], x);
    } else {
      w := n;
    }
  }

  /** A job that is not queued has a worker, or its flag is set. */
  lemma TakenHeld<T, S>(j: State<T, S>, x: nat) returns (w: nat)
    requires PoolRuns.Inv(j.pool) && Linked(j) && x in j.jobs && x !in j.flags && x !in j.pool.queue
    ensures w < |j.pool.workers| && j.pool.workers[w] == PoolRuns.Running(x)
  {
    var p := j.pool;
    assert multiset(p.accepted) == multiset(p.started) + multiset(p.queue);
    assert multiset(p.accepted)[x] == 1 && x !in multiset(p.queue);
    w := HandHeld(p.workers, x);
  }

  /** A job starts within as many worker steps as its delay, whatever else is submitted in
      the meantime: then some worker runs it, or it is done. */
  lemma StartsWithin<T, S>(exec: (T, S) -> T, js: seq<State<T, S>>, acts: seq<Act<T, S>>, i: nat, k: nat, x: nat) returns (w: nat)
    requires Run(exec, js, acts) == true && i <= k < |js| && |js| == |acts| + 1 && x in js[i].jobs
    requires StepCount(acts, i, k) >= Delay(js[i], x)
    ensures x in js[k].flags || (w < |js[k].pool.workers| && js[k].pool.workers[w] == PoolRuns.Running(x))
  {
    QueuedCounts(exec, js, acts, i, k, x);
    RunInv(exec, js, acts, k);
    w := 0;
    if x !in js[k].flags {
      w := TakenHeld(js[k], x);
    }
  }

  /** From then on the same worker has it until the flag is set, and can set it. */
  lemma {:induction false} HeldUntilDone<T, S>(exec: (T, S) -> T, js: seq<State<T, S>>, acts: seq<Act<T, S>>, i: nat, k: nat, w: nat, x: nat)
    requires Run(exec, js, acts) == true && i <= k < |js| && w < |js[i].pool.workers| && js[i].pool.workers[w] == PoolRuns.Running(x) && x !in js[k].flags
    ensures w < |js[k].pool.workers| && js[k].pool.workers[w] == PoolRuns.Running(x) && DoFlag(js[k], js[k].(flags := js[k].flags + {x}), w)
    decreases k
  {
    if i != k {
      var m := k - 1;
      assert StepAt(exec, js, acts, m);
      FlagsGrow(exec, js[m], js[k], acts[m]);
      HeldUntilDone(exec, js, acts, i, m, w, x);
      KeepsJob(exec, js[m], js[k], acts[m], w);
    }
  }

  lemma FlagsGrow<T, S>(exec: (T, S) -> T, j: State<T, S>, j': State<T, S>, act: Act<T, S>)
    requires Step1(exec, j, j', act)
    ensures j.flags <= j'.flags
  {
  }

  /** While a request is blocked, some worker step brings the job it waits for closer. */
  lemma BlockedGetsCloser<T, S>(exec: (T, S) -> T, js: seq<State<T, S>>, acts: seq<Act<T, S>>, i: nat, r: nat) returns (j': State<T, S>, act: Act<T, S>)
    requires Run(exec, js, acts) == true && i < |js| && Blocked(js[i], r)
    ensures WorkerAct(act) && Step1(exec, js[i], j', act) == true
    ensures var x := js[i].reqs[r].sent[js[i].reqs[r].waited]; Delay(j', x) < Delay(js[i], x)
  {
    RunInv(exec, js, acts, i);
    var j := js[i];
    var x := j.reqs[r].sent[j.reqs[r].waited];
    assert ReqOk(j.db.live, j.jobs, j.flags, r, j.reqs[r]);
    if x in j.pool.queue {
      j', act := BlockedHasStep(exec, js, acts, i, r);
      DelayFalls(exec, j, j', act, x);
    } else {
      var w := TakenHeld(j, x);
      act := Flag(w);
      j' := j.(flags := j.flags + {x});
    }
  }
}
