/** The critical sections of the linked queue are steps of PoolRuns (src/thr/pool.c:44-61,
    121-147). */
module PoolRefines {
  import opened Pool
  import PoolRuns

  /** The queue and the counters are those of a state of the step system. */
  ghost predicate Shows(q: JobPool, p: PoolRuns.Pool)
    reads q, q.list
  {
    q.Valid() && p.qmax == q.qmax && p.stop == q.stop && p.queue == q.Queue() && p.queued == q.queued && p.active == q.active && p.done == q.done
  }

  /** pool_add, with the workers its signal wakes. */
  method AddIsStep(q: JobPool, id: nat, ghost p: PoolRuns.Pool, ghost woken: set<nat>) returns (code: int, ghost p': PoolRuns.Pool)
    requires Shows(q, p) && PoolRuns.Signals(p.workers, woken)
    modifies q, q.list
    ensures PoolRuns.Next(p, p', PoolRuns.Add(id, code, woken)) && Shows(q, p')
  {
    code := q.Add(id);
    p' := if code != 0 then p
          else p.(queue := p.queue + [id], queued := p.queued + 1, workers := PoolRuns.Woken(p.workers, woken), accepted := p.accepted + [id]);
  }

  /** A worker that finds a job takes the first one. */
  method TakeIsStep(q: JobPool, w: nat, ghost p: PoolRuns.Pool) returns (job: Job, ghost p': PoolRuns.Pool)
    requires Shows(q, p) && q.head != null && w < |p.workers| && p.workers[w].Awake?
    modifies q
    ensures PoolRuns.Next(p, p', PoolRuns.Test(w)) && Shows(q, p') && p'.workers[w] == PoolRuns.Running(job.id)
  {
    job := q.Take();
    p' := p.(queue := p.queue[1..], queued := p.queued - 1, active := p.active + 1,
             workers := p.workers[w := PoolRuns.Running(p.queue[0])], started := p.started + [p.queue[0]]);
  }

  /** Back from the job, the worker counts it and wakes the others. */
  method FinishIsStep(q: JobPool, w: nat, ghost p: PoolRuns.Pool) returns (ghost p': PoolRuns.Pool)
    requires Shows(q, p) && w < |p.workers| && p.workers[w].Running?
    modifies q
    ensures PoolRuns.Next(p, p', PoolRuns.Finish(w)) && Shows(q, p')
  {
    q.Finish();
    p' := p.(active := p.active - 1, done := p.done + 1, finished := p.finished + multiset{p.workers[w].job},
             workers := PoolRuns.Woken(p.workers[w := PoolRuns.Awake], PoolRuns.AsleepOnes(p.workers)));
  }
}
