/**
 * The job queue, ordered by start time, and one pass of a scheduler over it.
 * What a handler answers and what the clock shows are parameters.
 */
module SchedulerQueues {

  datatype RepeatType = RepeatNone | RepeatPeriodic | RepeatLessAndLess

  class Job {
    var startTime: real
    const repeatType: RepeatType
    var repeatDelta: real

    constructor (startAt: real, repeatType: RepeatType, repeatDelta: real)
      ensures startTime == startAt && this.repeatType == repeatType && this.repeatDelta == repeatDelta
    {
      startTime := startAt;
      this.repeatType := repeatType;
      this.repeatDelta := repeatDelta;
    }

    /** Run the handler, which answered ret, and set the next start. */
    method DoStart(ret: bool, clock: real) returns (again: bool)
      modifies this
      ensures again == (ret && repeatType != RepeatNone)
      ensures startTime == if again then clock + old(repeatDelta) else old(startTime)
      ensures repeatDelta == (if again && repeatType == RepeatLessAndLess then 2.0 else 1.0) * old(repeatDelta)
    {
      if ret {
        match repeatType {
          case RepeatNone => return false;
          case RepeatPeriodic =>
            startTime := clock + repeatDelta;
          case RepeatLessAndLess =>
            startTime := clock + repeatDelta;
            repeatDelta := repeatDelta * 2.0;
        }
      }
      return ret;
    }
  }

  ghost predicate Distinct(jobs: seq<Job>) {
    forall i, j :: 0 <= i < j < |jobs| ==> jobs[i] != jobs[j]
  }

  ghost predicate SortedByStart(jobs: seq<Job>)
    reads jobs
  {
    forall i, j :: 0 <= i < j < |jobs| ==> jobs[i].startTime <= jobs[j].startTime
  }

  /** Index of the first job that starts later than t. */
  ghost function FirstAfter(jobs: seq<Job>, t: real, i: nat): (p: nat)
    requires i <= |jobs|
    reads jobs
    ensures i <= p <= |jobs|
    ensures forall k :: i <= k < p ==> jobs[k].startTime <= t
    ensures p < |jobs| ==> jobs[p].startTime > t
    decreases |jobs| - i
  {
    if i == |jobs| || jobs[i].startTime > t then i else FirstAfter(jobs, t, i + 1)
  }

  /** Index of the first job that is not due before now. */
  ghost function FirstNotBefore(jobs: seq<Job>, now: real, i: nat): (p: nat)
    requires i <= |jobs|
    reads jobs
    ensures i <= p <= |jobs|
    ensures forall k :: i <= k < p ==> jobs[k].startTime < now
    ensures p < |jobs| ==> jobs[p].startTime >= now
    decreases |jobs| - i
  {
    if i == |jobs| || jobs[i].startTime >= now then i else FirstNotBefore(jobs, now, i + 1)
  }

  /** Behind every job that starts no later: first in, first out among equals. */
  ghost function Inserted(jobs: seq<Job>, job: Job): (after: seq<Job>)
    reads jobs, job
    ensures |after| == |jobs| + 1
  {
    var p := FirstAfter(jobs, job.startTime, 0);
    jobs[..p] + [job] + jobs[p..]
  }

  class SchedulerQueue {
    var jobs: seq<Job>

    constructor ()
      ensures jobs == []
    {
      jobs := [];
    }

    /** It goes behind every job that starts no later, at p. */
    method Queue(job: Job) returns (ghost p: nat)
      modifies this
      ensures jobs == Inserted(old(jobs), job)
      ensures p <= |old(jobs)| && jobs == old(jobs)[..p] + [job] + old(jobs)[p..]
      ensures forall i :: 0 <= i < p ==> old(jobs)[i].startTime <= job.startTime
      ensures old(SortedByStart(jobs)) ==> forall i :: p <= i < |old(jobs)| ==> job.startTime < old(jobs)[i].startTime
    {
      var it := 0;
      while it < |jobs| && job.startTime >= jobs[it].startTime
        invariant 0 <= it <= |jobs|
        invariant FirstAfter(jobs, job.startTime, 0) == FirstAfter(jobs, job.startTime, it)
        invariant forall i :: 0 <= i < it ==> jobs[i].startTime <= job.startTime
        modifies {}
      {
        it := it + 1;
      }
      p := it;
      jobs := jobs[..it] + [job] + jobs[it..];
    }

    method PopJob() returns (job: Job?)
      modifies this
      ensures old(jobs) == [] ==> job == null && jobs == []
      ensures old(jobs) != [] ==> job == old(jobs)[0] && jobs == old(jobs)[1..]
    {
      if |jobs| == 0 {
        return null;
      }
      job := jobs[0];
      jobs := jobs[1..];
    }

    /** Erase the first occurrence; only a queued job is deleted. */
    method Cancel(job: Job) returns (deleted: bool)
      modifies this
      ensures deleted <==> job in old(jobs)
      ensures !deleted ==> jobs == old(jobs)
      ensures deleted ==> exists i :: 0 <= i < |old(jobs)| && old(jobs)[i] == job &&
                            job !in old(jobs)[..i] && jobs == old(jobs)[..i] + old(jobs)[i + 1..]
    {
      var it := 0;
      while it < |jobs| && jobs[it] != job
        invariant 0 <= it <= |jobs| && job !in jobs[..it]
        modifies {}
      {
        it := it + 1;
      }
      if it == |jobs| {
        assert jobs[..it] == jobs;
        return false;
      }
      jobs := jobs[..it] + jobs[it + 1..];
      return true;
    }

    function NextJobTime(): real
      reads this, jobs
    {
      if |jobs| == 0 then 0.0 else jobs[0].startTime
    }
  }

  /** Queueing keeps the order. */
  lemma QueueKeepsSorted(jobs: seq<Job>, job: Job)
    requires SortedByStart(jobs)
    ensures SortedByStart(Inserted(jobs, job))
  {
  }

  // -------------------------------------------------------- first in, first out

  datatype QueueOp = Enqueue(job: Job) | Pop | Drop(job: Job)

  /** The queue without the first occurrence of a job. */
  function WithoutJob(jobs: seq<Job>, job: Job): seq<Job> {
    if jobs == [] then [] else if jobs[0] == job then jobs[1..] else [jobs[0]] + WithoutJob(jobs[1..], job)
  }

  /** The jobs popped by a run of queueing, popping and cancelling, in order. */
  ghost function Served(jobs: seq<Job>, ops: seq<QueueOp>, all: set<Job>): (popped: seq<Job>)
    requires JobSet(jobs) <= all && forall o :: o in ops && o.Enqueue? ==> o.job in all
    reads all
    decreases |ops|
  {
    if ops == [] then []
    else
      match ops[0]
      case Enqueue(job) =>
        InsertedJobs(jobs, job);
        Served(Inserted(jobs, job), ops[1..], all)
      case Pop => if jobs == [] then Served(jobs, ops[1..], all) else [jobs[0]] + Served(jobs[1..], ops[1..], all)
      case Drop(job) =>
        WithoutJobs(jobs, job);
        Served(WithoutJob(jobs, job), ops[1..], all)
  }

  lemma InsertedJobs(jobs: seq<Job>, job: Job)
    ensures JobSet(Inserted(jobs, job)) == {job} + JobSet(jobs)
  {
    JobSetInsert(jobs, FirstAfter(jobs, job.startTime, 0), job);
  }

  lemma {:induction false} WithoutJobs(jobs: seq<Job>, job: Job)
    ensures JobSet(WithoutJob(jobs, job)) <= JobSet(jobs)
  {
    if jobs != [] && jobs[0] != job {
      WithoutJobs(jobs[1..], job);
      assert forall j :: j in WithoutJob(jobs, job) ==> j == jobs[0] || j in JobSet(WithoutJob(jobs[1..], job));
    }
  }

  /** No b without an a before it. */
  ghost predicate Leads(a: Job, b: Job, jobs: seq<Job>) {
    forall j :: 0 <= j < |jobs| && jobs[j] == b ==> a in jobs[..j]
  }

  lemma LeadsCons(a: Job, b: Job, x: Job, rest: seq<Job>)
    requires x == a || (x != b && Leads(a, b, rest))
    requires a != b
    ensures Leads(a, b, [x] + rest)
  {
    var all := [x] + rest;
    forall j | 0 <= j < |all| && all[j] == b ensures a in all[..j] {
      assert j > 0 && all[..j] == [x] + rest[..j - 1];
    }
  }

  lemma LeadsTail(a: Job, b: Job, jobs: seq<Job>)
    requires jobs != [] && Leads(a, b, jobs)
    ensures jobs[0] != b
    ensures jobs[0] != a ==> Leads(a, b, jobs[1..])
  {
    if jobs[0] != a {
      forall j | 0 <= j < |jobs[1..]| && jobs[1..][j] == b ensures a in jobs[1..][..j] {
        assert jobs[j + 1] == b && jobs[..j + 1] == [jobs[0]] + jobs[1..][..j];
      }
    }
  }

  lemma LeadsInserted(a: Job, b: Job, jobs: seq<Job>, p: nat, job: Job)
    requires p <= |jobs| && Leads(a, b, jobs) && job != b
    ensures Leads(a, b, jobs[..p] + [job] + jobs[p..])
  {
    var after := jobs[..p] + [job] + jobs[p..];
    forall j | 0 <= j < |after| && after[j] == b ensures a in after[..j] {
      if j < p {
        assert jobs[j] == b && after[..j] == jobs[..j];
      } else {
        assert jobs[j - 1] == b && after[..j] == jobs[..p] + [job] + jobs[p..j - 1];
        assert jobs[..j - 1] == jobs[..p] + jobs[p..j - 1];
      }
    }
  }

  lemma {:induction false} LeadsWithout(a: Job, b: Job, jobs: seq<Job>, job: Job)
    requires Leads(a, b, jobs) && job != a && a != b
    ensures Leads(a, b, WithoutJob(jobs, job))
  {
    if jobs != [] {
      LeadsTail(a, b, jobs);
      if jobs[0] != job {
        if jobs[0] != a {
          LeadsWithout(a, b, jobs[1..], job);
        }
        LeadsCons(a, b, jobs[0], WithoutJob(jobs[1..], job));
      }
    }
  }

  lemma {:induction false} LeaderIsServedFirst(a: Job, b: Job, jobs: seq<Job>, ops: seq<QueueOp>, all: set<Job>)
    requires JobSet(jobs) <= all && forall o :: o in ops && o.Enqueue? ==> o.job in all
    requires a != b && Leads(a, b, jobs) && Enqueue(b) !in ops && Drop(a) !in ops
    ensures Leads(a, b, Served(jobs, ops, all))
    decreases |ops|
  {
    if ops != [] {
      assert ops[0] in ops;
      match ops[0]
      case Enqueue(job) =>
        InsertedJobs(jobs, job);
        LeadsInserted(a, b, jobs, FirstAfter(jobs, job.startTime, 0), job);
        LeaderIsServedFirst(a, b, Inserted(jobs, job), ops[1..], all);
      case Pop =>
        if jobs == [] {
          LeaderIsServedFirst(a, b, jobs, ops[1..], all);
        } else {
          LeadsTail(a, b, jobs);
          if jobs[0] != a {
            LeaderIsServedFirst(a, b, jobs[1..], ops[1..], all);
          }
          LeadsCons(a, b, jobs[0], Served(jobs[1..], ops[1..], all));
        }
      case Drop(job) =>
        WithoutJobs(jobs, job);
        LeadsWithout(a, b, jobs, job);
        LeaderIsServedFirst(a, b, WithoutJob(jobs, job), ops[1..], all);
    }
  }

  /**
   * Of two jobs that start at the same time the one queued first is popped
   * first, whatever else is queued, popped or cancelled meanwhile.
   */
  lemma FirstInFirstOut(jobs: seq<Job>, a: Job, b: Job, ops: seq<QueueOp>, all: set<Job>)
    requires SortedByStart(jobs) && a in jobs && b !in jobs && a.startTime == b.startTime
    requires JobSet(jobs) <= all && b in all && forall o :: o in ops && o.Enqueue? ==> o.job in all
    requires Enqueue(b) !in ops && Drop(a) !in ops
    ensures Leads(a, b, Served(jobs, [Enqueue(b)] + ops, all))
  {
    var p := FirstAfter(jobs, b.startTime, 0);
    var after := Inserted(jobs, b);
    InsertedJobs(jobs, b);
    var i :| 0 <= i < |jobs| && jobs[i] == a;
    assert i < p && after == jobs[..p] + [b] + jobs[p..];
    forall j | 0 <= j < |after| && after[j] == b ensures a in after[..j] {
      assert j == p && after[..j][i] == a;
    }
    assert ([Enqueue(b)] + ops)[1..] == ops;
    LeaderIsServedFirst(a, b, after, ops, all);
  }

  // ------------------------------------------------------------------ one pass

  /** Where a pass stands: waiting jobs due before now, then everything later. */
  ghost predicate Passing(was: seq<Job>, due: nat, k: nat, jobs: seq<Job>, now: real)
    requires k <= due <= |was|
    reads jobs
  {
    && due - k <= |jobs| && jobs[..due - k] == was[k..due]
    && Distinct(jobs) && SortedByStart(jobs)
    && (forall i :: 0 <= i < |jobs| ==> jobs[i].repeatDelta >= 0.0)
    && (forall i :: 0 <= i < |jobs| ==> (jobs[i].startTime < now <==> i < due - k))
  }

  lemma PassingStart(was: seq<Job>, now: real)
    requires Distinct(was) && SortedByStart(was) && forall i :: 0 <= i < |was| ==> was[i].repeatDelta >= 0.0
    ensures Passing(was, FirstNotBefore(was, now, 0), 0, was, now)
  {
  }

  lemma PassingPop(was: seq<Job>, due: nat, k: nat, jobs: seq<Job>, now: real)
    requires k <= due <= |was| && Passing(was, due, k, jobs, now)
    requires jobs != [] && jobs[0].startTime < now
    ensures k < due && jobs[0] == was[k] && jobs[0] !in jobs[1..]
    ensures Passing(was, due, k + 1, jobs[1..], now)
  {
    assert jobs[..due - k][1..] == jobs[1..][..due - k - 1];
    assert was[k..due][1..] == was[k + 1..due];
    assert jobs[..due - k][0] == was[k..due][0];
  }

  lemma InsertedPassing(was: seq<Job>, due: nat, k: nat, jobs: seq<Job>, now: real, job: Job, p: nat, after: seq<Job>)
    requires k <= due <= |was| && Passing(was, due, k, jobs, now)
    requires job !in jobs && job.startTime >= now && job.repeatDelta >= 0.0
    requires due - k <= p <= |jobs| && |after| == |jobs| + 1
    requires after == jobs[..p] + [job] + jobs[p..] && SortedByStart(after)
    ensures Passing(was, due, k, after, now)
  {
    var at := (i: nat) requires i < |after| => if i < p then i else i - 1;
    assert forall i :: 0 <= i < |after| && i != p ==> after[i] == jobs[at(i)];
    assert after[p] == job;
    assert after[..due - k] == jobs[..due - k];
    forall i, j | 0 <= i < j < |after| ensures after[i] != after[j] {
      assert i != p ==> after[i] in jobs;
      assert j != p ==> after[j] in jobs;
    }
  }

  ghost function JobSet(jobs: seq<Job>): set<Job> {
    set j | j in jobs
  }

  lemma JobSetSnoc(jobs: seq<Job>, job: Job)
    ensures JobSet(jobs + [job]) == JobSet(jobs) + {job}
  {
  }

  lemma JobSetInsert(jobs: seq<Job>, p: nat, job: Job)
    requires p <= |jobs|
    ensures JobSet(jobs[..p] + [job] + jobs[p..]) == {job} + JobSet(jobs)
  {
    assert jobs == jobs[..p] + jobs[p..];
  }

  /** A job queued again starts at now or later, so it goes behind what is due. */
  lemma InsertedInPass(was: seq<Job>, due: nat, k: nat, jobs: seq<Job>, now: real, job: Job, after: seq<Job>)
    requires k <= due <= |was| && Passing(was, due, k, jobs, now)
    requires job !in jobs && job.startTime >= now && job.repeatDelta >= 0.0
    requires after == Inserted(jobs, job)
    ensures Passing(was, due, k, after, now)
    ensures JobSet(after) == {job} + JobSet(jobs)
  {
    var p := FirstAfter(jobs, job.startTime, 0);
    QueueKeepsSorted(jobs, job);
    JobSetInsert(jobs, p, job);
    InsertedPassing(was, due, k, jobs, now, job, p, after);
  }

  /** The handler said it was the last time, or the job does not repeat. */
  predicate IsLast(job: Job, answer: bool) {
    !answer || job.repeatType == RepeatNone
  }

  /** The body of the loop: pop, start, and queue again or delete. */
  method RunOne(queue: SchedulerQueue, now: real, answer: bool, clock: real, ghost was: seq<Job>, ghost due: nat,
                ghost k: nat)
    returns (job: Job, again: bool)
    requires k <= due <= |was| && Passing(was, due, k, queue.jobs, now)
    requires queue.jobs != [] && queue.jobs[0].startTime < now <= clock
    modifies queue, queue.jobs[0]
    ensures k < due && job == was[k] == old(queue.jobs[0])
    ensures again <==> !IsLast(job, answer)
    ensures job.startTime == if again then clock + old(queue.jobs[0].repeatDelta) else old(queue.jobs[0].startTime)
    ensures Passing(was, due, k + 1, queue.jobs, now)
    ensures JobSet(queue.jobs) == JobSet(old(queue.jobs)) - if again then {} else {job}
  {
    PassingPop(was, due, k, queue.jobs, now);
    assert queue.jobs == [queue.jobs[0]] + queue.jobs[1..];
    var popped := queue.PopJob();
    job := popped;
    again := job.DoStart(answer, clock);
    if again {
      Requeue(queue, job, now, was, due, k + 1);
    }
  }

  /** Queueing the popped job again, with what the pass needs to know about it. */
  method Requeue(queue: SchedulerQueue, job: Job, now: real, ghost was: seq<Job>, ghost due: nat, ghost k: nat)
    requires k <= due <= |was| && Passing(was, due, k, queue.jobs, now)
    requires job !in queue.jobs && job.startTime >= now && job.repeatDelta >= 0.0
    modifies queue
    ensures Passing(was, due, k, queue.jobs, now)
    ensures JobSet(queue.jobs) == {job} + JobSet(old(queue.jobs))
  {
    ghost var after := Inserted(queue.jobs, job);
    assert Passing(was, due, k, after, now) && JobSet(after) == {job} + JobSet(queue.jobs) by {
      InsertedInPass(was, due, k, queue.jobs, now, job, after);
    }
    var _ := queue.Queue(job);
    assert queue.jobs == after;
  }

  /** Where the pass stands: so many started, in order; each job queued or deleted. */
  ghost predicate InPass(was: seq<Job>, due: nat, started: seq<Job>, deleted: seq<Job>, jobs: seq<Job>, now: real)
    requires due <= |was|
    reads jobs
  {
    && |started| <= due && started == was[..|started|]
    && Passing(was, due, |started|, jobs, now)
    && JobSet(was) == JobSet(jobs) + JobSet(deleted)
    && JobSet(deleted) <= JobSet(started) && JobSet(deleted) !! JobSet(jobs)
  }

  /** One more job started, and deleted if it was its last start. */
  method StartOne(queue: SchedulerQueue, now: real, answer: bool, clock: real, ghost was: seq<Job>, ghost due: nat,
                  ghost started: seq<Job>, ghost deleted: seq<Job>)
    returns (job: Job, last: bool)
    requires due <= |was| && Distinct(was) && InPass(was, due, started, deleted, queue.jobs, now)
    requires queue.jobs != [] && queue.jobs[0].startTime < now <= clock
    modifies queue, queue.jobs[0]
    ensures InPass(was, due, started + [job], if last then deleted + [job] else deleted, queue.jobs, now)
    ensures (last <==> IsLast(job, answer)) && job in was && job !in started && job !in deleted
  {
    assert queue.jobs[0] in JobSet(was) && queue.jobs[0] in JobSet(queue.jobs);
    var again;
    job, again := RunOne(queue, now, answer, clock, was, due, |started|);
    last := !again;
    assert was[..|started| + 1] == started + [job];
    JobSetSnoc(started, job);
    JobSetSnoc(deleted, job);
  }

  /** Of the started jobs those are deleted that were started for the last time. */
  ghost predicate Disposed(started: seq<Job>, deleted: seq<Job>, answers: nat -> bool) {
    forall i :: 0 <= i < |started| ==> (started[i] in deleted <==> IsLast(started[i], answers(i)))
  }

  lemma DisposedOne(started: seq<Job>, deleted: seq<Job>, answers: nat -> bool, job: Job, last: bool)
    requires Disposed(started, deleted, answers) && job !in started && job !in deleted
    requires last <==> IsLast(job, answers(|started|))
    ensures Disposed(started + [job], if last then deleted + [job] else deleted, answers)
  {
  }

  /**
   * One pass of Scheduler::Loop by a single worker: each job due before now is
   * started exactly once, in order of start time, and what was not due stays.
   */
  method Loop(queue: SchedulerQueue, now: real, answers: nat -> bool, clock: nat -> real)
    returns (started: seq<Job>, deleted: seq<Job>)
    requires Distinct(queue.jobs) && SortedByStart(queue.jobs)
    requires forall i :: 0 <= i < |queue.jobs| ==> queue.jobs[i].repeatDelta >= 0.0
    requires forall n :: clock(n) >= now
    modifies queue, queue.jobs
    ensures started == old(queue.jobs)[..old(FirstNotBefore(queue.jobs, now, 0))]
    ensures Distinct(queue.jobs) && SortedByStart(queue.jobs)
    ensures forall i :: 0 <= i < |queue.jobs| ==> queue.jobs[i].startTime >= now
    ensures JobSet(old(queue.jobs)) == JobSet(queue.jobs) + JobSet(deleted)
    ensures JobSet(deleted) <= JobSet(started) && JobSet(deleted) !! JobSet(queue.jobs)
    ensures Disposed(started, deleted, answers)
  {
    ghost var was := queue.jobs;
    ghost var due := FirstNotBefore(was, now, 0);
    PassingStart(was, now);
    started, deleted := [], [];
    while |queue.jobs| != 0 && queue.NextJobTime() < now
      invariant InPass(was, due, started, deleted, queue.jobs, now)
      invariant Disposed(started, deleted, answers)
      decreases due - |started|
    {
      assert queue.jobs[0] in JobSet(was);
      var job, last := StartOne(queue, now, answers(|started|), clock(|started|), was, due, started, deleted);
      DisposedOne(started, deleted, answers, job, last);
      started := started + [job];
      if last {
        deleted := deleted + [job];
      }
    }
  }
}
