/** The order in which a request of src/api/route.c sends its read jobs, waits for them and
    releases its snapshot. */
module Requests {
  import opened Basics

  /** pool_add taking job number `job` or refusing one, qjob_wait for a job, db_done. */
  datatype Event = Submit(job: nat) | Refused | Wait(job: nat) | Release

  /** How many jobs were sent and waited for, whether one was refused, and whether the
      snapshot is released. */
  datatype Stage = Stage(sent: nat, waited: nat, refused: bool, closed: bool)

  /** The rules, for a request that wants n jobs: no job after a refusal, waiting in the
      order of sending, and no release before every job sent was waited for. */
  function Advance(st: Stage, e: Event, n: nat): Option<Stage> {
    if st.closed then None
    else
      match e
      case Submit(job) => if !st.refused && job == st.sent < n then Some(st.(sent := st.sent + 1)) else None
      case Refused => if !st.refused && st.sent < n then Some(st.(refused := true)) else None
      case Wait(job) => if job == st.waited < st.sent then Some(st.(waited := st.waited + 1)) else None
      case Release => if st.waited == st.sent && (st.refused || st.sent == n) then Some(st.(closed := true)) else None
  }

  /** Where a history leads, if it keeps to the rules. */
  function After(log: seq<Event>, n: nat): Option<Stage> {
    if log == [] then Some(Stage(0, 0, false, false))
    else
      var st := After(log[..|log| - 1], n);
      if st.None? then None else Advance(st.value, log[|log| - 1], n)
  }

  lemma AfterPush(log: seq<Event>, e: Event, n: nat)
    ensures After(log + [e], n) == if After(log, n).None? then None else Advance(After(log, n).value, e, n)
  {
    assert (log + [e])[..|log|] == log;
  }

  /** qjob_wait for the jobs up to b - 1, in order. */
  method WaitFor(log: seq<Event>, a: nat, b: nat, refused: bool, n: nat) returns (r: seq<Event>)
    requires a <= b && After(log, n) == Some(Stage(b, a, refused, false))
    ensures After(r, n) == Some(Stage(b, b, refused, false))
  {
    r := log;
    var j := a;
    while j < b
      invariant a <= j <= b && After(r, n) == Some(Stage(b, j, refused, false))
    {
      AfterPush(r, Wait(j), n);
      r := r + [Wait(j)];
      j := j + 1;
    }
  }

  /** The parallel branch of do_batch; taken[i] says whether pool_add takes job i.  It
      keeps to the rules and ends with the release, having sent every job or stopped at
      the first refusal. */
  method Batch(n: nat, taken: seq<bool>) returns (log: seq<Event>, ok: bool)
    requires |taken| == n
    ensures After(log, n).Some? && After(log, n).value.closed
    ensures ok <==> forall i :: 0 <= i < n ==> taken[i]
    ensures ok ==> After(log, n).value.sent == n
  {
    log := [];
    var i := 0;
    while i < n
      invariant 0 <= i <= n && After(log, n) == Some(Stage(i, 0, false, false)) && forall j :: 0 <= j < i ==> taken[j]
    {
      if !taken[i] {
        AfterPush(log, Refused, n);
        log := WaitFor(log + [Refused], 0, i, true, n);
        AfterPush(log, Release, n);
        return log + [Release], false;
      }
      AfterPush(log, Submit(i), n);
      log := log + [Submit(i)];
      i := i + 1;
    }
    log := WaitFor(log, 0, n, false, n);
    AfterPush(log, Release, n);
    return log + [Release], true;
  }

  /** page_run_parallel: groups of `workers` jobs, each group waited for before the next. */
  method Page(n: nat, workers: nat, taken: seq<bool>) returns (log: seq<Event>, ok: bool)
    requires |taken| == n && workers > 0
    ensures After(log, n).Some? && After(log, n).value.closed
    ensures ok <==> forall i :: 0 <= i < n ==> taken[i]
    ensures ok ==> After(log, n).value.sent == n
  {
    log := [];
    var i := 0;
    while i < n
      invariant 0 <= i && After(log, n) == (var k := if i < n then i else n; Some(Stage(k, k, false, false)))
      invariant forall j :: 0 <= j < i && j < n ==> taken[j]
    {
      var end := if i + workers > n then n else i + workers;
      var j := i;
      while j < end
        invariant i <= j <= end && After(log, n) == Some(Stage(j, i, false, false)) && forall k :: 0 <= k < j ==> taken[k]
      {
        if !taken[j] {
          AfterPush(log, Refused, n);
          log := WaitFor(log + [Refused], i, j, true, n);
          AfterPush(log, Release, n);
          return log + [Release], false;
        }
        AfterPush(log, Submit(j), n);
        log := log + [Submit(j)];
        j := j + 1;
      }
      log := WaitFor(log, i, end, false, n);
      i := i + workers;
    }
    AfterPush(log, Release, n);
    return log + [Release], true;
  }
}
