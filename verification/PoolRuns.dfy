/** The worker pool of src/thr/pool.c as a step system: every step is one critical
    section under the pool's mutex, in any interleaving of callers and workers. */
module PoolRuns {

  datatype Worker =
    | Awake              // about to test the loop conditions under the mutex
    | Asleep             // in pthread_cond_wait, not woken
    | Running(job: nat)  // in job->fn, outside the mutex
    | Exited

  datatype Pool = Pool(
    qmax: nat,
    stop: bool,
    queue: seq<nat>,         // the linked list from head to tail
    queued: int,
    active: int,
    done: int,
    workers: seq<Worker>,
    accepted: seq<nat>,      // history: jobs in the order pool_add took them
    started: seq<nat>,       // history: jobs in the order workers took them
    finished: multiset<nat>) // history: jobs whose function returned

  datatype Step =
    | Add(job: nat, code: int, woken: set<nat>)  // pool_add with its return code
    | Test(w: nat)                               // the top of the worker loop
    | Finish(w: nat)                             // the worker is back from the job
    | Wake(w: nat)                               // a spurious wake-up
    | Stop                                       // pool_stop

  // ------------------------------------------------------------ workers

  ghost function AwakeOnes(ws: seq<Worker>): set<nat> {
    set w: nat | w < |ws| && ws[w].Awake?
  }

  ghost function AsleepOnes(ws: seq<Worker>): set<nat> {
    set w: nat | w < |ws| && ws[w].Asleep?
  }

  ghost function RunningOnes(ws: seq<Worker>): set<nat> {
    set w: nat | w < |ws| && ws[w].Running?
  }

  /** The given sleepers wake up. */
  ghost function Woken(ws: seq<Worker>, who: set<nat>): (r: seq<Worker>)
    ensures |r| == |ws|
    ensures forall w :: 0 <= w < |ws| ==> r[w] == if w in who && ws[w].Asleep? then Awake else ws[w]
  {
    seq(|ws|, w requires 0 <= w < |ws| => if w in who && ws[w].Asleep? then Awake else ws[w])
  }

  ghost function JobOf(w: Worker): multiset<nat> {
    if w.Running? then multiset{w.job} else multiset{}
  }

  /** The jobs being run. */
  ghost function InHand(ws: seq<Worker>): multiset<nat> {
    if ws == [] then multiset{} else InHand(ws[..|ws| - 1]) + JobOf(ws[|ws| - 1])
  }

  lemma {:induction false} InHandUpdate(ws: seq<Worker>, w: nat, x: Worker)
    requires w < |ws|
    ensures InHand(ws[w := x]) + JobOf(ws[w]) == InHand(ws) + JobOf(x)
  {
    var n := |ws| - 1;
    if w == n {
      assert ws[w := x][..n] == ws[..n];
    } else {
      InHandUpdate(ws[..n], w, x);
      assert ws[w := x][..n] == ws[..n][w := x];
      assert ws[w := x][n] == ws[n] && ws[..n][w] == ws[w];
      Swap(InHand(ws[..n][w := x]), InHand(ws[..n]), JobOf(ws[w]), JobOf(x), JobOf(ws[n]));
    }
  }

  lemma Swap(a: multiset<nat>, b: multiset<nat>, x: multiset<nat>, y: multiset<nat>, z: multiset<nat>)
    requires a + x == b + y
    ensures a + z + x == b + z + y
  {
    assert a + z + x == a + x + z && b + z + y == b + y + z;
  }

  lemma InHandSame(ws: seq<Worker>, w: nat, x: Worker)
    requires w < |ws| && !ws[w].Running? && !x.Running?
    ensures InHand(ws[w := x]) == InHand(ws)
  {
    InHandUpdate(ws, w, x);
    assert InHand(ws[w := x]) + multiset{} == InHand(ws[w := x]) && InHand(ws) + multiset{} == InHand(ws);
  }

  lemma InHandStart(ws: seq<Worker>, w: nat, job: nat)
    requires w < |ws| && !ws[w].Running?
    ensures InHand(ws[w := Running(job)]) == InHand(ws) + multiset{job}
  {
    InHandUpdate(ws, w, Running(job));
    assert InHand(ws[w := Running(job)]) + multiset{} == InHand(ws[w := Running(job)]);
  }

  lemma InHandEnd(ws: seq<Worker>, w: nat)
    requires w < |ws| && ws[w].Running?
    ensures InHand(ws) == InHand(ws[w := Awake]) + multiset{ws[w].job}
  {
    InHandUpdate(ws, w, Awake);
    assert InHand(ws) + multiset{} == InHand(ws);
  }

  lemma {:induction false} InHandWoken(ws: seq<Worker>, who: set<nat>)
    ensures InHand(Woken(ws, who)) == InHand(ws)
  {
    if ws != [] {
      InHandWoken(ws[..|ws| - 1], who);
      assert Woken(ws, who)[..|ws| - 1] == Woken(ws[..|ws| - 1], who);
    }
  }

  lemma {:induction false} InHandSize(ws: seq<Worker>)
    ensures |InHand(ws)| == |RunningOnes(ws)| <= |ws|
  {
    if ws != [] {
      var n := |ws| - 1;
      InHandSize(ws[..n]);
      assert RunningOnes(ws) == RunningOnes(ws[..n]) + if ws[n].Running? then {n} else {};
    }
  }

  // ------------------------------------------------------------ steps

  ghost predicate Init(p: Pool) {
    && p.qmax > 0 && |p.workers| > 0 && (forall w :: 0 <= w < |p.workers| ==> p.workers[w].Awake?)
    && !p.stop && p.queue == [] && p.queued == 0 && p.active == 0 && p.done == 0
    && p.accepted == [] && p.started == [] && p.finished == multiset{}
  }

  /** pthread_cond_signal wakes at least one sleeper if there is one. */
  ghost predicate Signals(ws: seq<Worker>, woken: set<nat>) {
    woken <= AsleepOnes(ws) && (AsleepOnes(ws) != {} ==> woken != {})
  }

  ghost predicate DoAdd(p: Pool, p': Pool, job: nat, code: int, woken: set<nat>) {
    if p.stop then code == -2 && p' == p
    else if p.queued >= p.qmax then code == -1 && p' == p
    else
      && code == 0 && Signals(p.workers, woken)
      && p' == p.(queue := p.queue + [job], queued := p.queued + 1, workers := Woken(p.workers, woken), accepted := p.accepted + [job])
  }

  ghost predicate DoTest(p: Pool, p': Pool, w: nat) {
    && w < |p.workers| && p.workers[w].Awake?
    && if p.queue == [] then p' == p.(workers := p.workers[w := if p.stop then Exited else Asleep])
       else p' == p.(queue := p.queue[1..], queued := p.queued - 1, active := p.active + 1,
                     workers := p.workers[w := Running(p.queue[0])], started := p.started + [p.queue[0]])
  }

  ghost predicate DoFinish(p: Pool, p': Pool, w: nat) {
    && w < |p.workers| && p.workers[w].Running?
    && p' == p.(active := p.active - 1, done := p.done + 1, finished := p.finished + multiset{p.workers[w].job},
                workers := Woken(p.workers[w := Awake], AsleepOnes(p.workers)))
  }

  ghost predicate Next(p: Pool, p': Pool, step: Step) {
    match step
    case Add(job, code, woken) => DoAdd(p, p', job, code, woken)
    case Test(w) => DoTest(p, p', w)
    case Finish(w) => DoFinish(p, p', w)
    case Wake(w) => w < |p.workers| && p.workers[w].Asleep? && p' == p.(workers := p.workers[w := Awake])
    case Stop => p' == p.(stop := true, workers := Woken(p.workers, AsleepOnes(p.workers)))
  }

  // ------------------------------------------------------------ invariant

  /** The books: every accepted job is queued, in hand or finished, and the counters
      count them; jobs start in the order they were accepted. */
  ghost predicate Books(p: Pool) {
    && p.accepted == p.started + p.queue
    && multiset(p.started) == p.finished + InHand(p.workers)
    && p.queued == |p.queue| <= p.qmax
    && p.active == |InHand(p.workers)|
    && p.done == |p.finished|
  }

  /** No lost wake-up: while a worker sleeps, there are at least as many awake ones as
      queued jobs; a stopped pool has no sleepers, and nobody leaves while jobs wait. */
  ghost predicate Wakeful(p: Pool) {
    && |p.workers| > 0
    && (AsleepOnes(p.workers) != {} ==> |AwakeOnes(p.workers)| >= |p.queue|)
    && (p.stop ==> AsleepOnes(p.workers) == {})
    && (forall w :: 0 <= w < |p.workers| && p.workers[w].Exited? ==> p.stop && p.queue == [])
  }

  ghost predicate Inv(p: Pool) {
    Books(p) && Wakeful(p)
  }

  lemma AddBooks(p: Pool, p': Pool, job: nat, code: int, woken: set<nat>)
    requires Books(p) && DoAdd(p, p', job, code, woken)
    ensures Books(p') == true
  {
    InHandWoken(p.workers, woken);
  }

  lemma TestBooks(p: Pool, p': Pool, w: nat)
    requires Books(p) && DoTest(p, p', w)
    ensures Books(p') == true
  {
    if p.queue == [] {
      InHandSame(p.workers, w, p'.workers[w]);
    } else {
      InHandStart(p.workers, w, p.queue[0]);
      Taken(p.started, p.queue);
      Started(p.started, p.queue[0], p.finished, InHand(p.workers));
    }
  }

  lemma Taken(started: seq<nat>, queue: seq<nat>)
    requires queue != []
    ensures started + [queue[0]] + queue[1..] == started + queue
  {
  }

  lemma Started(started: seq<nat>, job: nat, finished: multiset<nat>, hand: multiset<nat>)
    requires multiset(started) == finished + hand
    ensures multiset(started + [job]) == finished + (hand + multiset{job}) && |hand + multiset{job}| == |hand| + 1
  {
  }

  lemma FinishBooks(p: Pool, p': Pool, w: nat)
    requires Books(p) && DoFinish(p, p', w)
    ensures Books(p') == true
  {
    InHandEnd(p.workers, w);
    InHandWoken(p.workers[w := Awake], AsleepOnes(p.workers));
    assert p.finished + InHand(p.workers) == p'.finished + InHand(p'.workers);
  }

  lemma SignalWakes(ws: seq<Worker>, woken: set<nat>)
    requires Signals(ws, woken)
    ensures AsleepOnes(Woken(ws, woken)) == AsleepOnes(ws) - woken
    ensures |AwakeOnes(Woken(ws, woken))| == |AwakeOnes(ws)| + |woken|
    ensures forall w :: 0 <= w < |ws| && Woken(ws, woken)[w].Exited? ==> ws[w].Exited?
  {
    assert AwakeOnes(Woken(ws, woken)) == AwakeOnes(ws) + woken && AwakeOnes(ws) !! woken;
  }

  lemma AddWakeful(p: Pool, p': Pool, job: nat, code: int, woken: set<nat>)
    requires Wakeful(p) && DoAdd(p, p', job, code, woken)
    ensures Wakeful(p') == true
  {
    if code == 0 {
      SignalWakes(p.workers, woken);
    }
  }

  lemma TestWakeful(p: Pool, p': Pool, w: nat)
    requires Wakeful(p) && DoTest(p, p', w)
    ensures Wakeful(p') == true
  {
    assert AwakeOnes(p'.workers) == AwakeOnes(p.workers) - {w};
    if p.queue != [] || p.stop {
      assert AsleepOnes(p'.workers) == AsleepOnes(p.workers);
    }
  }

  /** A broadcast leaves no sleepers. */
  lemma BroadcastWakes(ws: seq<Worker>, who: set<nat>)
    requires AsleepOnes(ws) <= who
    ensures AsleepOnes(Woken(ws, who)) == {}
    ensures forall w :: 0 <= w < |ws| && Woken(ws, who)[w].Exited? ==> ws[w].Exited?
  {
  }

  lemma FinishWakeful(p: Pool, p': Pool, w: nat)
    requires Wakeful(p) && DoFinish(p, p', w)
    ensures Wakeful(p') == true
  {
    assert AsleepOnes(p.workers[w := Awake]) == AsleepOnes(p.workers);
    BroadcastWakes(p.workers[w := Awake], AsleepOnes(p.workers));
  }

  lemma WakeInv(p: Pool, p': Pool, w: nat)
    requires Books(p) && Wakeful(p) && w < |p.workers| && p.workers[w].Asleep? && p' == p.(workers := p.workers[w := Awake])
    ensures Books(p') == true && Wakeful(p') == true
  {
    InHandSame(p.workers, w, Awake);
    WakeOne(p.workers, w);
  }

  lemma WakeOne(ws: seq<Worker>, w: nat)
    requires w < |ws| && ws[w].Asleep?
    ensures AsleepOnes(ws[w := Awake]) == AsleepOnes(ws) - {w} && w in AsleepOnes(ws) && |AwakeOnes(ws[w := Awake])| == |AwakeOnes(ws)| + 1
    ensures forall v :: 0 <= v < |ws| && ws[w := Awake][v].Exited? ==> ws[v].Exited?
  {
    assert AwakeOnes(ws[w := Awake]) == AwakeOnes(ws) + {w};
  }

  lemma StopInv(p: Pool, p': Pool)
    requires Inv(p) && p' == p.(stop := true, workers := Woken(p.workers, AsleepOnes(p.workers)))
    ensures Inv(p') == true
  {
    InHandWoken(p.workers, AsleepOnes(p.workers));
    BroadcastWakes(p.workers, AsleepOnes(p.workers));
  }

  lemma StepInv(p: Pool, p': Pool, step: Step)
    requires Inv(p) == true && Next(p, p', step) == true
    ensures Inv(p') == true
  {
    match step
    case Add(job, code, woken) => AddBooks(p, p', job, code, woken); AddWakeful(p, p', job, code, woken);
    case Test(w) => TestBooks(p, p', w); TestWakeful(p, p', w);
    case Finish(w) => FinishBooks(p, p', w); FinishWakeful(p, p', w);
    case Wake(w) => WakeInv(p, p', w);
    case Stop => StopInv(p, p');
  }

  // ------------------------------------------------------------ whole runs

  ghost predicate Run(ps: seq<Pool>, steps: seq<Step>) {
    && |ps| == |steps| + 1 && Init(ps[0])
    && forall i {:trigger steps[i]} :: 0 <= i < |steps| ==> Next(ps[i], ps[i + 1], steps[i])
  }

  lemma InitInv(p: Pool)
    requires Init(p)
    ensures Inv(p) == true
  {
    InHandIdle(p.workers);
    assert forall w :: w in AsleepOnes(p.workers) ==> false;
  }

  lemma {:induction false} RunInv(ps: seq<Pool>, steps: seq<Step>, i: nat)
    requires Run(ps, steps) && i < |ps|
    ensures Inv(ps[i]) == true
  {
    if i == 0 {
      InitInv(ps[0]);
    } else {
      RunInv(ps, steps, i - 1);
      StepInv(ps[i - 1], ps[i], steps[i - 1]);
    }
  }

  lemma {:induction false} InHandIdle(ws: seq<Worker>)
    requires forall w :: 0 <= w < |ws| ==> !ws[w].Running?
    ensures InHand(ws) == multiset{}
  {
    if ws != [] {
      InHandIdle(ws[..|ws| - 1]);
    }
  }

  /** In every state of every run: accepted = queued + active + done, at most qmax jobs
      queued, at most one job per worker active; the jobs started are the first of the
      accepted ones, in order; and each started job is in hand or finished, once. */
  lemma JobsConserved(ps: seq<Pool>, steps: seq<Step>, i: nat)
    requires Run(ps, steps) && i < |ps|
    ensures var p := ps[i];
            && |p.accepted| == p.queued + p.active + p.done
            && 0 <= p.queued <= p.qmax && 0 <= p.active <= |p.workers|
            && p.started <= p.accepted && multiset(p.started) == p.finished + InHand(p.workers)
  {
    RunInv(ps, steps, i);
    var p := ps[i];
    InHandSize(p.workers);
    assert |multiset(p.started)| == |p.started|;
  }

  /** Nothing is accepted after the stop. */
  lemma {:induction false} NothingAfterStop(ps: seq<Pool>, steps: seq<Step>, i: nat, j: nat)
    requires Run(ps, steps) && i <= j < |ps| && ps[i].stop
    ensures ps[j].stop && ps[j].accepted == ps[i].accepted
    decreases j
  {
    if i < j {
      NothingAfterStop(ps, steps, i, j - 1);
      assert Next(ps[j - 1], ps[j], steps[j - 1]);
    }
  }

  /** What pool_del finds after joining all workers: an empty queue, and every accepted
      job finished. */
  lemma JoinedPoolIsEmpty(ps: seq<Pool>, steps: seq<Step>, i: nat)
    requires Run(ps, steps) && i < |ps| && forall w :: 0 <= w < |ps[i].workers| ==> ps[i].workers[w].Exited?
    ensures ps[i].queue == [] && ps[i].finished == multiset(ps[i].accepted)
  {
    RunInv(ps, steps, i);
    assert ps[i].workers[0].Exited?;
    InHandIdle(ps[i].workers);
  }

  // ------------------------------------------------------------ progress

  /** A worker that can take its next step by itself. */
  ghost predicate Enabled(p: Pool, w: nat) {
    w < |p.workers| && (p.workers[w].Awake? || p.workers[w].Running?)
  }

  /** While an accepted job is unfinished, some worker can step: so whoever waits for
      the job does not wait on a pool that is stuck. */
  lemma UnfinishedHasStep(p: Pool, job: nat) returns (w: nat)
    requires Inv(p) && p.finished[job] < multiset(p.accepted)[job]
    ensures Enabled(p, w)
  {
    if RunningOnes(p.workers) != {} {
      w :| w in RunningOnes(p.workers);
    } else {
      InHandSize(p.workers);
      assert InHand(p.workers) == multiset{};
      assert p.queue != [];
      if AsleepOnes(p.workers) != {} {
        w :| w in AwakeOnes(p.workers);
      } else {
        w := 0;
        assert p.workers[0].Asleep? ==> 0 in AsleepOnes(p.workers);
        assert p.workers[0].Running? ==> 0 in RunningOnes(p.workers);
      }
    }
  }

  /** An enabled worker's step exists, and is determined. */
  lemma EnabledSteps(p: Pool, w: nat) returns (p': Pool, step: Step)
    requires Enabled(p, w)
    ensures Next(p, p', step) && (step == Test(w) || step == Finish(w))
  {
    if p.workers[w].Running? {
      step := Finish(w);
      p' := p.(active := p.active - 1, done := p.done + 1, finished := p.finished + multiset{p.workers[w].job},
               workers := Woken(p.workers[w := Awake], AsleepOnes(p.workers)));
    } else {
      step := Test(w);
      p' := if p.queue == [] then p.(workers := p.workers[w := if p.stop then Exited else Asleep])
            else p.(queue := p.queue[1..], queued := p.queued - 1, active := p.active + 1,
                    workers := p.workers[w := Running(p.queue[0])], started := p.started + [p.queue[0]]);
    }
  }

  /** The work left: two steps for a queued job, one for a running one, and in between
      the tests of workers that find nothing. */
  ghost function Work(p: Pool): nat {
    (|p.workers| + 1) * (2 * |p.queue| + |RunningOnes(p.workers)|) + |AwakeOnes(p.workers)|
  }

  lemma AwakeBound(ws: seq<Worker>)
    ensures |AwakeOnes(ws)| <= |ws|
  {
    AwakeBelow(ws, |ws|);
  }

  lemma {:induction false} AwakeBelow(ws: seq<Worker>, n: nat)
    requires n == |ws|
    ensures |AwakeOnes(ws)| <= n
  {
    if n > 0 {
      AwakeBelow(ws[..n - 1], n - 1);
      assert AwakeOnes(ws) == AwakeOnes(ws[..n - 1]) + if ws[n - 1].Awake? then {n - 1} else {};
    }
  }

  /** Worker steps use the work up, so without new jobs and spurious wake-ups the pool
      comes to rest. */
  lemma WorkDecreases(p: Pool, p': Pool, step: Step)
    requires Next(p, p', step) && (step.Test? || step.Finish?)
    ensures Work(p') < Work(p)
  {
    AwakeBound(p'.workers);
    if step.Finish? {
      FinishWork(p, p', step.w);
    } else {
      TestWork(p, p', step.w);
    }
  }

  lemma FinishWork(p: Pool, p': Pool, w: nat)
    requires DoFinish(p, p', w) && |AwakeOnes(p'.workers)| <= |p'.workers|
    ensures Work(p') < Work(p)
  {
    var ws, ws' := p.workers, p'.workers;
    assert w in RunningOnes(ws) && RunningOnes(ws') == RunningOnes(ws) - {w};
    Sums(|ws|, |p.queue|, |RunningOnes(ws)|, |AwakeOnes(ws)|, |p'.queue|, |RunningOnes(ws')|, |AwakeOnes(ws')|);
  }

  lemma TestWork(p: Pool, p': Pool, w: nat)
    requires DoTest(p, p', w) && |AwakeOnes(p'.workers)| <= |p'.workers|
    ensures Work(p') < Work(p)
  {
    var ws, ws' := p.workers, p'.workers;
    assert w in AwakeOnes(ws) && AwakeOnes(ws') == AwakeOnes(ws) - {w};
    if p.queue == [] {
      assert RunningOnes(ws') == RunningOnes(ws);
    } else {
      assert RunningOnes(ws') == RunningOnes(ws) + {w};
      Sums(|ws|, |p.queue|, |RunningOnes(ws)|, |AwakeOnes(ws)|, |p'.queue|, |RunningOnes(ws')|, |AwakeOnes(ws')|);
    }
  }

  lemma Sums(n: nat, q: nat, r: nat, a: nat, q': nat, r': nat, a': nat)
    requires 2 * q' + r' == 2 * q + r - 1 && a' <= n
    ensures (n + 1) * (2 * q' + r') + a' < (n + 1) * (2 * q + r) + a
  {
    Scale(n + 1, 2 * q + r);
  }

  lemma Scale(n: nat, d: nat)
    requires d > 0
    ensures n * d == n * (d - 1) + n
  {
  }

  /** At rest every accepted job is finished, and a stopped pool's workers have all
      left. */
  lemma RestIsDone(p: Pool)
    requires Inv(p) && forall w :: !Enabled(p, w)
    ensures p.finished == multiset(p.accepted)
    ensures p.stop ==> forall w :: 0 <= w < |p.workers| ==> p.workers[w].Exited?
  {
    if p.finished != multiset(p.accepted) {
      Unfinished(p);
      var job :| p.finished[job] < multiset(p.accepted)[job];
      var w := UnfinishedHasStep(p, job);
      assert false;
    }
    forall w | 0 <= w < |p.workers| && p.stop ensures p.workers[w].Exited? {
      assert !Enabled(p, w);
      assert p.workers[w].Asleep? ==> w in AsleepOnes(p.workers);
    }
  }

  lemma Unfinished(p: Pool)
    requires Books(p) && p.finished != multiset(p.accepted)
    ensures exists job :: p.finished[job] < multiset(p.accepted)[job]
  {
    assert multiset(p.accepted) == p.finished + InHand(p.workers) + multiset(p.queue);
    var job :| p.finished[job] != multiset(p.accepted)[job];
  }
}
