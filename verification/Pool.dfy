/** The job queue of src/thr/pool.c as it is stored. */
module Pool {

  class Job {
    const id: nat
    var next: Job?

    constructor (id: nat)
      ensures this.id == id && next == null
    {
      this.id, next := id, null;
    }
  }

  /** The links from head to tail. */
  ghost predicate Linked(head: Job?, tail: Job?, list: seq<Job>)
    reads list
  {
    && head == (if list == [] then null else list[0])
    && tail == (if list == [] then null else list[|list| - 1])
    && (forall i {:trigger list[i].next} :: 0 <= i < |list| ==> list[i].next == if i + 1 < |list| then list[i + 1] else null)
    && (forall i, j :: 0 <= i < j < |list| ==> list[i] != list[j])
  }

  ghost function Ids(list: seq<Job>): seq<nat> {
    seq(|list|, i requires 0 <= i < |list| => list[i].id)
  }

  class JobPool {
    const qmax: int
    var stop: bool
    var queued: int
    var active: int
    var done: int
    var head: Job?
    var tail: Job?
    ghost var list: seq<Job>

    ghost predicate Valid()
      reads this, list
    {
      Linked(head, tail, list) && queued == |list|
    }

    /** The queued jobs, the oldest first. */
    ghost function Queue(): seq<nat>
      reads this
    {
      Ids(list)
    }

    constructor (qmax: int)
      requires qmax > 0
      ensures Valid() && this.qmax == qmax && Queue() == [] && !stop && active == 0 && done == 0
    {
      this.qmax := qmax;
      stop, queued, active, done := false, 0, 0, 0;
      head, tail, list := null, null, [];
    }

    /** pool_add: refused with -2 after a stop and with -1 when the queue is full. */
    method Add(id: nat) returns (code: int)
      requires Valid()
      modifies this, list
      ensures Valid() && stop == old(stop) && active == old(active) && done == old(done)
      ensures code == if old(stop) then -2 else if old(queued) >= qmax then -1 else 0
      ensures Queue() == if code == 0 then old(Queue()) + [id] else old(Queue())
    {
      if stop {
        return -2;
      }
      if queued >= qmax {
        return -1;
      }
      var job := new Job(id);
      if tail != null {
        tail.next := job;
      } else {
        head := job;
      }
      tail := job;
      list := list + [job];
      queued := queued + 1;
      code := 0;
    }

    /** The part of wrk_run that takes a job, under the mutex. */
    method Take() returns (job: Job)
      requires Valid() && head != null
      modifies this
      ensures Valid() && stop == old(stop) && done == old(done) && active == old(active) + 1
      ensures old(Queue()) == [job.id] + Queue() && queued == old(queued) - 1
    {
      ghost var l := list;
      job := head;
      assert forall i {:trigger l[1..][i]} :: 0 <= i < |l| - 1 ==> l[1..][i] == l[i + 1] && l[i + 1].next == if i + 2 < |l| then l[i + 2] else null;
      head := job.next;
      if head == null {
        tail := null;
      }
      list := list[1..];
      queued := queued - 1;
      active := active + 1;
    }

    /** The part of wrk_run after the job's function returned. */
    method Finish()
      requires Valid()
      modifies this`active, this`done
      ensures Valid() && active == old(active) - 1 && done == old(done) + 1
    {
      active := active - 1;
      done := done + 1;
    }
  }
}
