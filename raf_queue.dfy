/** The animation-frame job queue of the web client: jobs wait in a FIFO,
    one runs per frame, and the next runs only after the running one calls
    `done`. `raf(next)` is modelled by a pending frame that the browser later
    fires with `Frame`; a job is its number and starts when `Frame` shifts
    it off the queue. */
module RafQueue {
  import opened Wrappers

  class Queue {
    /** The waiting jobs, oldest first. */
    var jobs: seq<nat>
    /** The frame handle: `None` for null, while no job is in progress. */
    var id: Option<nat>
    /** The handle the next `raf` call returns; handles are never 0. */
    var nextHandle: nat
    /** A call of `next` was requested and the frame has not fired yet. */
    var framePending: bool
    /** The job that started and has not called `done`. */
    var running: Option<nat>
    /** A job called `done` with an error, which threw. */
    var stalled: bool
    /** The jobs in the order they started. */
    var started: seq<nat>
    /** Every job ever queued, in order. */
    ghost var queued: seq<nat>

    /** Jobs start in the order they were queued; while jobs wait, a handle
        is held; and at most one of a pending frame, a running job and a
        stall accounts for that handle. */
    ghost predicate Valid()
      reads this
    {
      queued == started + jobs &&
      nextHandle >= 1 &&
      (id.Some? ==> id.value >= 1) &&
      (id.None? ==> !framePending && running.None? && !stalled && jobs == []) &&
      (id.Some? ==> (if framePending then 1 else 0) + (if running.Some? then 1 else 0) + (if stalled then 1 else 0) == 1)
    }

    /** The module's initial state: no jobs, `id` null. */
    constructor ()
      ensures Valid()
      ensures jobs == [] && id.None? && started == [] && queued == []
    {
      jobs := [];
      id := None;
      nextHandle := 1;
      framePending := false;
      running := None;
      stalled := false;
      started := [];
      queued := [];
    }

    /** `queue`: push the job; request a frame only when no handle is held,
        so a running job is never joined by a second one. */
    method Enqueue(job: nat)
      requires Valid()
      modifies this
      ensures Valid()
      ensures jobs == old(jobs) + [job] && queued == old(queued) + [job]
      ensures started == old(started) && running == old(running) && stalled == old(stalled)
      ensures old(id).None? ==> id.Some? && framePending
      ensures old(id).Some? ==> id == old(id) && framePending == old(framePending)
      ensures stalled ==> !framePending
    {
      jobs := jobs + [job];
      queued := queued + [job];
      if id.None? {
        id := Some(nextHandle);
        nextHandle := nextHandle + 1;
        framePending := true;
      }
    }

    /** `next`, run by the requested frame: with no job waiting, release the
        handle so the next `queue` restarts processing; otherwise start the
        oldest job. */
    method Frame()
      requires Valid() && framePending
      modifies this
      ensures Valid()
      ensures !framePending && stalled == old(stalled)
      ensures old(jobs) == [] ==> id.None? && running.None? && started == old(started)
      ensures old(jobs) != [] ==>
        running == Some(old(jobs)[0]) && jobs == old(jobs)[1..] &&
        started == old(started) + [old(jobs)[0]] && id == old(id)
      ensures queued == old(queued)
    {
      framePending := false;
      if jobs == [] {
        id := None;
        return;
      }
      var job := jobs[0];
      jobs := jobs[1..];
      started := started + [job];
      running := Some(job);
    }

    /** `done`, called by the running job: an error is thrown and nothing is
        scheduled, which leaves the handle set and the queue stalled for
        good; otherwise a frame is requested for the next job. */
    method Done(err: bool) returns (thrown: bool)
      requires Valid() && running.Some?
      modifies this
      ensures Valid()
      ensures thrown == err && running.None?
      ensures jobs == old(jobs) && started == old(started) && queued == old(queued)
      ensures err ==> stalled && !framePending && id == old(id)
      ensures !err ==> framePending && id.Some? && !stalled
    {
      running := None;
      if err {
        thrown := true;
        stalled := true;
      } else {
        thrown := false;
        id := Some(nextHandle);
        nextHandle := nextHandle + 1;
        framePending := true;
      }
    }
  }

  /** FIFO: the jobs that started are the oldest queued ones, in queue
      order, and the next to start is the one queued right after them. */
  lemma StartsInQueueOrder(q: Queue)
    requires q.Valid()
    ensures q.started == q.queued[..|q.started|]
    ensures q.jobs != [] ==> q.queued[|q.started|] == q.jobs[0]
  {
  }
}
