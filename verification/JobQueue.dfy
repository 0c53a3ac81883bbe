/** The worker's receive-prefetch queue: frames read ahead of the evaluation, with an orderly end and a cancel. */
module JobQueue {
  import opened LinkedList

  type Job = Node<seq<int>>

  ghost predicate Ledger(accepted: seq<Job>, taken: seq<Job>, waiting: seq<Job>, canceled: bool) {
    taken <= accepted && (!canceled ==> accepted == taken + waiting)
  }

  lemma HandOut(accepted: seq<Job>, taken: seq<Job>, waiting: seq<Job>)
    requires Ledger(accepted, taken, waiting, false) && waiting != []
    ensures Ledger(accepted, taken + [waiting[0]], waiting[1..], false)
  {
    assert taken + waiting == taken + [waiting[0]] + waiting[1..];
  }

  lemma Shift(before: seq<Job>, done: seq<Job>, waiting: seq<Job>)
    requires waiting != []
    ensures done + waiting == (done + [waiting[0]]) + waiting[1..]
    ensures before + done + [waiting[0]] == before + (done + [waiting[0]])
  {
  }

  ghost predicate AllIn(done: seq<Job>, works: set<Job>) { forall j :: j in done ==> j in works }

  class Queue {
    var head: Node?<seq<int>>
    var tail: Node?<seq<int>>
    var queued: nat
    const depth: nat
    var closed: bool
    var canceled: bool
    ghost var jobs: seq<Job>
    ghost var accepted: seq<Job>   // every job ever taken in
    ghost var taken: seq<Job>      // every job ever handed out

    /** head, tail and the links describe the waiting jobs. Until a cancel nothing is lost: what was taken in
        is what was handed out followed by what waits. */
    ghost predicate Valid()
      reads this, jobs
    {
      && queued == |jobs| <= depth && (canceled ==> closed && jobs == [])
      && Linked(jobs) && head == Nth(jobs, 0) && tail == Last(jobs)
      && Ledger(accepted, taken, jobs, canceled)
    }

    constructor (depth: nat)
      ensures Valid() && this.depth == depth && !closed && !canceled && jobs == [] && accepted == [] && taken == []
    {
      this.depth := depth;
      head, tail, queued, closed, canceled := null, null, 0, false, false;
      jobs, accepted, taken := [], [], [];
    }

    predicate MayEnqueue()
      reads this
    {
      closed || canceled || queued < depth
    }

    /** Called once the wait for room has ended. A closed queue takes nothing in. */
    method Enqueue(job: Job) returns (ok: bool)
      requires Valid() && MayEnqueue() && job !in jobs && job.next == null
      modifies this, tail
      ensures Valid() && ok == !old(closed) && closed == old(closed) && canceled == old(canceled) && taken == old(taken)
      ensures jobs == (if ok then old(jobs) + [job] else old(jobs))
      ensures accepted == if ok then old(accepted) + [job] else old(accepted)
    {
      if closed || canceled { return false; }
      Append(jobs, tail, job);
      if tail == null { head := job; }
      tail := job;
      queued := queued + 1;
      jobs, accepted := jobs + [job], accepted + [job];
      ok := true;
    }

    predicate MayPop()
      reads this
    {
      head != null || closed || canceled
    }

    /** Called once the wait for a job has ended. The oldest job is handed out; null means the end: the queue
        is canceled, or closed and drained. */
    method Pop() returns (job: Node?<seq<int>>)
      requires Valid() && MayPop()
      modifies this, head
      ensures Valid() && closed == old(closed) && canceled == old(canceled) && accepted == old(accepted)
      ensures job == null <==> old(jobs) == []
      ensures job == null ==> closed && jobs == [] && taken == old(taken)
      ensures job != null ==>
                job == old(jobs)[0] && job.next == null && jobs == old(jobs)[1..] && taken == old(taken) + [job]
    {
      if canceled || head == null { return null; }
      ghost var rest := jobs[1..];
      TailLinked(jobs);
      HandOut(accepted, taken, jobs);
      job := head;
      head := job.next;
      if head == null { tail := null; }
      queued := queued - 1;
      job.next := null;
      jobs, taken := rest, taken + [job];
    }

    /** No more jobs are taken in; those that wait are still handed out. */
    method Finish()
      requires Valid()
      modifies this`closed
      ensures Valid() && closed && jobs == old(jobs)
    {
      closed := true;
    }

    /** What waits is dropped. */
    method Cancel()
      requires Valid()
      modifies this
      ensures Valid() && closed && canceled && jobs == [] && accepted == old(accepted) && taken == old(taken)
    {
      closed, canceled := true, true;
      head, tail, queued, jobs := null, null, 0, [];
    }

    /** The evaluation loop once nothing more comes in. works holds the jobs that are processed
        without failure. Every job taken in is handed out once, in order; the first failure cancels the rest. */
    method Drain(works: set<Job>) returns (handled: seq<Job>)
      requires Valid() && closed && !canceled
      modifies this, jobs
      ensures Valid() && jobs == [] && accepted == old(accepted) && handled <= old(jobs)
              && taken == old(taken) + handled
      ensures AllIn(old(jobs), works) ==> handled == old(jobs) && taken == accepted && !canceled
      ensures canceled ==> handled != [] && handled[|handled| - 1] !in works
      ensures handled != [] ==> AllIn(handled[..|handled| - 1], works)
    {
      handled := [];
      ghost var all, before, intake := jobs, taken, accepted;
      while true
        invariant Valid() && closed && !canceled && accepted == intake
        invariant taken == before + handled && all == handled + jobs
        invariant AllIn(handled, works)
        decreases |jobs|
      {
        ghost var waiting, done := jobs, handled;
        assert head != null ==> head == all[|done|] && head in all;
        var next := Pop();
        if next == null { return; }
        var job: Job := next;
        Shift(before, done, waiting);
        handled := handled + [job];
        assert handled[..|done|] == done && job in all;
        if job !in works {
          Cancel();
          return;
        }
      }
    }
  }
}
