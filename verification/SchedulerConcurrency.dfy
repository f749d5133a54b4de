/**
 * Several workers and callers around the one job queue. A step is what happens
 * under one hold of the queue's lock, or one private move of a worker; the steps
 * of all workers and callers interleave freely. A worker's look at the size, its
 * look at the first start time and its pop are three steps.
 */
module SchedulerConcurrency {
  import opened Options

  type JobId = nat

  /** stamp numbers the insertions: it is not in the program, it states arrival order. */
  datatype Entry = Entry(job: JobId, start: real, stamp: nat)

  datatype Worker =
    | Sleeping
    | Ready(now: real)
    | SawWork(now: real)
    | SawDue(now: real)
    | Running(now: real, job: JobId)
    | Ended(now: real, job: JobId, again: bool, start: real)

  /** submitted, dead and started are histories: jobs queued by callers, deleted, and started. */
  datatype State = State(queue: seq<Entry>, workers: seq<Worker>, oneShot: set<JobId>, stamp: nat,
                         submitted: set<JobId>, dead: seq<JobId>, started: seq<JobId>)

  datatype Action =
    | Submit(job: JobId, start: real, once: bool)
    | Cancel(job: JobId)
    | Wake(w: nat, now: real)
    | CheckSize(w: nat)
    | CheckTime(w: nat)
    | Pop(w: nat)
    | Finish(w: nat, ret: bool, start: real)
    | Dispose(w: nat)

  // ------------------------------------------------------------------ steps

  /** The loop of Queue: past every entry that starts no later. */
  function InsertAt(queue: seq<Entry>, start: real, i: nat): (p: nat)
    requires i <= |queue|
    ensures i <= p <= |queue|
    ensures forall k :: i <= k < p ==> queue[k].start <= start
    ensures p < |queue| ==> start < queue[p].start
    decreases |queue| - i
  {
    if i == |queue| || start < queue[i].start then i else InsertAt(queue, start, i + 1)
  }

  function Enqueued(s: State, job: JobId, start: real): State {
    var p := InsertAt(s.queue, start, 0);
    s.(queue := s.queue[..p] + [Entry(job, start, s.stamp)] + s.queue[p..], stamp := s.stamp + 1)
  }

  function NextJobTime(queue: seq<Entry>): real {
    if queue == [] then 0.0 else queue[0].start
  }

  /** Where find stops: the first entry of the job, or the end. */
  function FindJob(queue: seq<Entry>, job: JobId, i: nat): (p: nat)
    requires i <= |queue|
    ensures i <= p <= |queue|
    ensures p < |queue| ==> queue[p].job == job
    ensures forall k :: i <= k < p ==> queue[k].job != job
    decreases |queue| - i
  {
    if i == |queue| || queue[i].job == job then i else FindJob(queue, job, i + 1)
  }

  /** Callers queue fresh jobs only, and a worker takes the step its code is at. */
  predicate Enabled(s: State, a: Action) {
    match a
    case Submit(job, _, _) => job !in s.submitted
    case Cancel(_) => true
    case Wake(w, _) => w < |s.workers| && s.workers[w].Sleeping?
    case CheckSize(w) => w < |s.workers| && s.workers[w].Ready?
    case CheckTime(w) => w < |s.workers| && s.workers[w].SawWork?
    case Pop(w) => w < |s.workers| && s.workers[w].SawDue?
    case Finish(w, _, _) => w < |s.workers| && s.workers[w].Running?
    case Dispose(w) => w < |s.workers| && s.workers[w].Ended?
  }

  function Moved(s: State, w: nat, to: Worker): State
    requires w < |s.workers|
  {
    s.(workers := s.workers[w := to])
  }

  function Submitted(s: State, job: JobId, once: bool): State {
    s.(submitted := s.submitted + {job}, oneShot := if once then s.oneShot + {job} else s.oneShot)
  }

  function Step(s: State, a: Action): State
    requires Enabled(s, a)
  {
    match a
    case Submit(job, start, once) =>
      Enqueued(Submitted(s, job, once), job, start)
    case Cancel(job) =>
      var p := FindJob(s.queue, job, 0);
      if p == |s.queue| then s
      else s.(queue := s.queue[..p] + s.queue[p + 1..], dead := s.dead + [job])
    case Wake(w, now) => Moved(s, w, Ready(now))
    case CheckSize(w) =>
      Moved(s, w, if s.queue != [] then SawWork(s.workers[w].now) else Sleeping)
    case CheckTime(w) =>
      Moved(s, w, if NextJobTime(s.queue) < s.workers[w].now then SawDue(s.workers[w].now) else Sleeping)
    case Pop(w) =>
      if s.queue == [] then Moved(s, w, Ready(s.workers[w].now))
      else Moved(s, w, Running(s.workers[w].now, s.queue[0].job))
           .(queue := s.queue[1..], started := s.started + [s.queue[0].job])
    case Finish(w, ret, start) =>
      Moved(s, w, Ended(s.workers[w].now, s.workers[w].job, ret && s.workers[w].job !in s.oneShot, start))
    case Dispose(w) =>
      var done := s.workers[w];
      if done.again then Enqueued(Moved(s, w, Ready(done.now)), done.job, done.start)
      else Moved(s, w, Ready(done.now)).(dead := s.dead + [done.job])
  }

  function Initial(n: nat): State {
    State([], seq(n, _ => Sleeping), {}, 0, {}, [], [])
  }

  /** A run: each action is enabled where it is taken. */
  predicate IsRun(s: State, run: seq<Action>)
    decreases |run|
  {
    run == [] || (Enabled(s, run[0]) && IsRun(Step(s, run[0]), run[1..]))
  }

  function After(s: State, run: seq<Action>): State
    requires IsRun(s, run)
    decreases |run|
  {
    if run == [] then s else After(Step(s, run[0]), run[1..])
  }

  // ------------------------------------------------------------------ ownership

  datatype Place = Queued(i: nat) | HeldBy(w: nat) | Dead(i: nat)

  function JobAt(s: State, p: Place): Option<JobId> {
    match p
    case Queued(i) => if i < |s.queue| then Some(s.queue[i].job) else None
    case HeldBy(w) =>
      if w < |s.workers| && (s.workers[w].Running? || s.workers[w].Ended?) then Some(s.workers[w].job) else None
    case Dead(i) => if i < |s.dead| then Some(s.dead[i]) else None
  }

  /** Every submitted job is at exactly one place, and nothing else is anywhere. */
  ghost predicate Owned(s: State) {
    && (forall p, q :: JobAt(s, p).Some? && JobAt(s, p) == JobAt(s, q) ==> p == q)
    && (forall p :: JobAt(s, p).Some? ==> JobAt(s, p).value in s.submitted)
    && (forall j :: j in s.submitted ==> exists p :: JobAt(s, p) == Some(j))
  }

  predicate Before(a: Entry, b: Entry) {
    a.start < b.start || (a.start == b.start && a.stamp < b.stamp)
  }

  /** By start time, and by arrival among equals. */
  ghost predicate Ordered(s: State) {
    && (forall i, j :: 0 <= i < j < |s.queue| ==> Before(s.queue[i], s.queue[j]))
    && (forall i :: 0 <= i < |s.queue| ==> s.queue[i].stamp < s.stamp)
  }

  /** A job that does not repeat is never queued again once started. */
  ghost predicate OneShots(s: State) {
    && s.oneShot <= s.submitted
    && (forall j :: j in s.started ==> j in s.submitted)
    && (forall j :: j in s.oneShot ==> multiset(s.started)[j] <= 1)
    && (forall i :: 0 <= i < |s.queue| && s.queue[i].job in s.oneShot ==> s.queue[i].job !in s.started)
    && (forall w :: 0 <= w < |s.workers| && s.workers[w].Ended? && s.workers[w].again ==>
        s.workers[w].job !in s.oneShot)
  }

  /** Where the job that the step leaves at p was before. */
  function Origin(s: State, a: Action, p: Place): Place
    requires Enabled(s, a)
  {
    match a
    case Submit(_, start, _) =>
      var at := InsertAt(s.queue, start, 0);
      if p.Queued? && p.i >= at then (if p.i == at then p else Queued(p.i - 1)) else p
    case Cancel(job) =>
      var at := FindJob(s.queue, job, 0);
      if at == |s.queue| then p
      else if p == Dead(|s.dead|) then Queued(at)
      else if p.Queued? && p.i >= at then Queued(p.i + 1) else p
    case Pop(w) =>
      if s.queue == [] then p
      else if p == HeldBy(w) then Queued(0)
      else if p.Queued? then Queued(p.i + 1) else p
    case Dispose(w) =>
      var at := InsertAt(s.queue, s.workers[w].start, 0);
      if !s.workers[w].again then (if p == Dead(|s.dead|) then HeldBy(w) else p)
      else if p == Queued(at) then HeldBy(w)
      else if p.Queued? && p.i > at then Queued(p.i - 1) else p
    case _ => p
  }

  /** Where the step takes the job at p. */
  function Target(s: State, a: Action, p: Place): Place
    requires Enabled(s, a)
  {
    match a
    case Submit(_, start, _) =>
      if p.Queued? && p.i >= InsertAt(s.queue, start, 0) then Queued(p.i + 1) else p
    case Cancel(job) =>
      var at := FindJob(s.queue, job, 0);
      if at == |s.queue| then p
      else if p == Queued(at) then Dead(|s.dead|)
      else if p.Queued? && p.i > at then Queued(p.i - 1) else p
    case Pop(w) =>
      if p == Queued(0) then HeldBy(w) else if p.Queued? then Queued(p.i - 1) else p
    case Dispose(w) =>
      var at := InsertAt(s.queue, s.workers[w].start, 0);
      if p == HeldBy(w) then (if s.workers[w].again then Queued(at) else Dead(|s.dead|))
      else if s.workers[w].again && p.Queued? && p.i >= at then Queued(p.i + 1) else p
    case _ => p
  }

  /** The place a submission fills. */
  predicate Filled(s: State, a: Action, p: Place) {
    a.Submit? && p == Queued(InsertAt(s.queue, a.start, 0))
  }

  /** A step carries the job at p along, and what it leaves at p comes from one place. */
  ghost predicate Carries(s: State, a: Action, p: Place)
    requires Enabled(s, a)
  {
    && (JobAt(s, p).Some? ==>
          JobAt(Step(s, a), Target(s, a, p)) == JobAt(s, p) && !Filled(s, a, Target(s, a, p)))
    && (JobAt(Step(s, a), p).Some? && !Filled(s, a, p) ==>
          JobAt(s, Origin(s, a, p)) == JobAt(Step(s, a), p) && Target(s, a, Origin(s, a, p)) == p)
    && (Filled(s, a, p) ==> JobAt(Step(s, a), p) == Some(a.job))
  }

  lemma SubmitCarries(s: State, a: Action, p: Place)
    requires Enabled(s, a) && a.Submit?
    ensures Carries(s, a, p)
  {
    var at := InsertAt(s.queue, a.start, 0);
    assert Step(s, a).queue == s.queue[..at] + [Entry(a.job, a.start, s.stamp)] + s.queue[at..];
    assert Step(s, a).workers == s.workers && Step(s, a).dead == s.dead;
  }

  lemma CancelCarries(s: State, a: Action, p: Place)
    requires Enabled(s, a) && a.Cancel?
    ensures Carries(s, a, p)
  {
  }

  lemma PopCarries(s: State, a: Action, p: Place)
    requires Enabled(s, a) && a.Pop?
    ensures Carries(s, a, p)
  {
  }

  lemma RequeueCarries(s: State, a: Action, p: Place)
    requires Enabled(s, a) && a.Dispose? && s.workers[a.w].again
    ensures Carries(s, a, p)
  {
    var done := s.workers[a.w];
    var at := InsertAt(s.queue, done.start, 0);
    assert Step(s, a).queue == s.queue[..at] + [Entry(done.job, done.start, s.stamp)] + s.queue[at..];
  }

  lemma DeleteCarries(s: State, a: Action, p: Place)
    requires Enabled(s, a) && a.Dispose? && !s.workers[a.w].again
    ensures Carries(s, a, p)
  {
  }

  lemma StepCarries(s: State, a: Action, p: Place)
    requires Enabled(s, a)
    ensures Carries(s, a, p)
  {
    match a
    case Submit(_, _, _) => SubmitCarries(s, a, p);
    case Cancel(_) => CancelCarries(s, a, p);
    case Pop(_) => PopCarries(s, a, p);
    case Dispose(w) =>
      if s.workers[w].again { RequeueCarries(s, a, p); } else { DeleteCarries(s, a, p); }
    case _ =>
  }

  lemma StepOwned(s: State, a: Action)
    requires Enabled(s, a) && Owned(s)
    ensures Owned(Step(s, a))
  {
    var t := Step(s, a);
    forall p, q | JobAt(t, p).Some? && JobAt(t, p) == JobAt(t, q) ensures p == q {
      StepCarries(s, a, p);
      StepCarries(s, a, q);
    }
    forall p | JobAt(t, p).Some? ensures JobAt(t, p).value in t.submitted {
      StepCarries(s, a, p);
    }
    forall j | j in t.submitted ensures exists p :: JobAt(t, p) == Some(j) {
      if j in s.submitted {
        var p :| JobAt(s, p) == Some(j);
        StepCarries(s, a, p);
      } else {
        StepCarries(s, a, Queued(InsertAt(s.queue, a.start, 0)));
      }
    }
  }

  lemma EnqueuedOrdered(s: State, job: JobId, start: real)
    requires Ordered(s)
    ensures Ordered(Enqueued(s, job, start))
  {
  }

  lemma StepOrdered(s: State, a: Action)
    requires Enabled(s, a) && Ordered(s)
    ensures Ordered(Step(s, a))
  {
    match a
    case Submit(job, start, once) =>
      EnqueuedOrdered(Submitted(s, job, once), job, start);
    case Dispose(w) =>
      var done := s.workers[w];
      if done.again {
        EnqueuedOrdered(Moved(s, w, Ready(done.now)), done.job, done.start);
      }
    case _ =>
  }

  /** What ownership says of the queue alone. */
  lemma QueueOwned(s: State)
    requires Owned(s)
    ensures forall i :: 0 <= i < |s.queue| ==> s.queue[i].job in s.submitted
    ensures forall i, j :: 0 <= i < j < |s.queue| ==> s.queue[i].job != s.queue[j].job
    ensures forall w :: 0 <= w < |s.workers| && (s.workers[w].Running? || s.workers[w].Ended?) ==>
            s.workers[w].job in s.submitted
  {
    forall i | 0 <= i < |s.queue| ensures s.queue[i].job in s.submitted {
      assert JobAt(s, Queued(i)) == Some(s.queue[i].job);
    }
    forall i, j | 0 <= i < j < |s.queue| ensures s.queue[i].job != s.queue[j].job {
      assert JobAt(s, Queued(i)) == Some(s.queue[i].job) && JobAt(s, Queued(j)) == Some(s.queue[j].job);
    }
    forall w | 0 <= w < |s.workers| && (s.workers[w].Running? || s.workers[w].Ended?)
      ensures s.workers[w].job in s.submitted
    {
      assert JobAt(s, HeldBy(w)).Some?;
    }
  }

  lemma EnqueuedOneShots(s: State, job: JobId, start: real)
    requires OneShots(s) && (job in s.oneShot ==> job !in s.started)
    ensures OneShots(Enqueued(s, job, start))
  {
    var t := Enqueued(s, job, start);
    forall i | 0 <= i < |t.queue| && t.queue[i].job in t.oneShot ensures t.queue[i].job !in t.started {
      assert t.queue[i].job != job ==> t.queue[i] in s.queue;
    }
  }

  lemma PopOneShots(s: State, a: Action)
    requires Enabled(s, a) && Owned(s) && OneShots(s) && a.Pop? && s.queue != []
    ensures OneShots(Step(s, a))
  {
    QueueOwned(s);
    var t := Step(s, a);
    assert s.queue[0].job in s.oneShot ==> multiset(s.started)[s.queue[0].job] == 0;
    forall i | 0 <= i < |t.queue| && t.queue[i].job in t.oneShot ensures t.queue[i].job !in t.started {
      assert t.queue[i] == s.queue[i + 1];
    }
  }

  lemma SubmitOneShots(s: State, a: Action)
    requires Enabled(s, a) && Owned(s) && OneShots(s) && a.Submit?
    ensures OneShots(Step(s, a))
  {
    QueueOwned(s);
    var t := Submitted(s, a.job, a.once);
    assert a.job !in s.started;
    EnqueuedOneShots(t, a.job, a.start);
  }

  lemma DisposeOneShots(s: State, a: Action)
    requires Enabled(s, a) && OneShots(s) && a.Dispose?
    ensures OneShots(Step(s, a))
  {
    var done := s.workers[a.w];
    if done.again {
      EnqueuedOneShots(Moved(s, a.w, Ready(done.now)), done.job, done.start);
    }
  }

  lemma OtherOneShots(s: State, a: Action)
    requires Enabled(s, a) && OneShots(s) && !a.Submit? && !a.Dispose? && !(a.Pop? && s.queue != [])
    ensures OneShots(Step(s, a))
  {
  }

  lemma StepOneShots(s: State, a: Action)
    requires Enabled(s, a) && Owned(s) && OneShots(s)
    ensures OneShots(Step(s, a))
  {
    if a.Submit? {
      SubmitOneShots(s, a);
    } else if a.Dispose? {
      DisposeOneShots(s, a);
    } else if a.Pop? && s.queue != [] {
      PopOneShots(s, a);
    } else {
      OtherOneShots(s, a);
    }
  }

  // ------------------------------------------------------------------ every run

  /**
   * Under every interleaving of any number of workers with callers that queue
   * fresh jobs: no job is lost, held twice or deleted twice; the queue stays in
   * order of start and, among equals, of arrival; a job that does not repeat is
   * started at most once.
   */
  lemma {:induction false} RunKeepsJobs(s: State, run: seq<Action>)
    requires IsRun(s, run) && Owned(s) && Ordered(s) && OneShots(s)
    ensures var t := After(s, run); Owned(t) && Ordered(t) && OneShots(t) && |t.workers| == |s.workers|
    decreases |run|
  {
    if run != [] {
      StepOwned(s, run[0]);
      StepOrdered(s, run[0]);
      StepOneShots(s, run[0]);
      RunKeepsJobs(Step(s, run[0]), run[1..]);
    }
  }

  lemma EveryRunKeepsJobs(n: nat, run: seq<Action>)
    requires IsRun(Initial(n), run)
    ensures var t := After(Initial(n), run); Owned(t) && Ordered(t) && OneShots(t) && |t.workers| == n
  {
    assert forall p :: JobAt(Initial(n), p) == None;
    RunKeepsJobs(Initial(n), run);
  }

  /** No job is in the hands of two workers, nor deleted twice, nor deleted and still in use. */
  lemma NeverTwice(s: State)
    requires Owned(s)
    ensures forall v, w :: 0 <= v < w < |s.workers| && JobAt(s, HeldBy(v)).Some? ==>
              JobAt(s, HeldBy(v)) != JobAt(s, HeldBy(w))
    ensures forall i, j :: 0 <= i < j < |s.dead| ==> s.dead[i] != s.dead[j]
    ensures forall i, w :: 0 <= i < |s.dead| && 0 <= w < |s.workers| ==> JobAt(s, HeldBy(w)) != Some(s.dead[i])
    ensures forall i, j :: 0 <= i < |s.dead| && 0 <= j < |s.queue| ==> s.queue[j].job != s.dead[i]
  {
    forall i, j | 0 <= i < j < |s.dead| ensures s.dead[i] != s.dead[j] {
      assert JobAt(s, Dead(i)) == Some(s.dead[i]) && JobAt(s, Dead(j)) == Some(s.dead[j]);
    }
    forall i, w | 0 <= i < |s.dead| && 0 <= w < |s.workers| ensures JobAt(s, HeldBy(w)) != Some(s.dead[i]) {
      assert JobAt(s, Dead(i)) == Some(s.dead[i]);
    }
    forall i, j | 0 <= i < |s.dead| && 0 <= j < |s.queue| ensures s.queue[j].job != s.dead[i] {
      assert JobAt(s, Dead(i)) == Some(s.dead[i]) && JobAt(s, Queued(j)) == Some(s.queue[j].job);
    }
  }

  function DeadSet(dead: seq<JobId>): set<JobId> {
    set j | j in dead
  }

  /** Once the queue is empty and no worker holds a job, all that was ever queued is deleted, once each. */
  lemma DrainedIsDeleted(s: State)
    requires Owned(s) && s.queue == []
    requires forall w :: 0 <= w < |s.workers| ==> JobAt(s, HeldBy(w)) == None
    ensures DeadSet(s.dead) == s.submitted && |s.dead| == |s.submitted|
  {
    NeverTwice(s);
    forall j | j in s.submitted ensures j in s.dead {
      var p :| JobAt(s, p) == Some(j);
      assert p.Dead?;
    }
    forall j | j in s.dead ensures j in s.submitted {
      var i :| 0 <= i < |s.dead| && s.dead[i] == j;
      assert JobAt(s, Dead(i)) == Some(j);
    }
    assert DeadSet(s.dead) == s.submitted;
    DistinctSize(s.dead);
  }

  lemma {:induction false} DistinctSize(dead: seq<JobId>)
    requires forall i, j :: 0 <= i < j < |dead| ==> dead[i] != dead[j]
    ensures |DeadSet(dead)| == |dead|
  {
    if dead != [] {
      var rest, last := dead[..|dead| - 1], dead[|dead| - 1];
      DistinctSize(rest);
      assert dead == rest + [last] && last !in rest;
      assert DeadSet(dead) == DeadSet(rest) + {last};
    }
  }

  /** A pop takes the earliest job, and of those with the same start the one queued first. */
  lemma PopTakesEarliest(s: State, a: Action, e: Entry)
    requires Enabled(s, a) && Ordered(s) && a.Pop? && s.queue != []
    requires e in s.queue && e != s.queue[0]
    ensures e in Step(s, a).queue && Before(s.queue[0], e)
  {
    var i :| 0 <= i < |s.queue| && s.queue[i] == e;
    assert Step(s, a).queue[i - 1] == e;
  }

  // ------------------------------------------------------------------ due or not

  /** The step starts a job whose time has not come by the worker's own clock. */
  predicate StartsEarly(s: State, a: Action)
    requires Enabled(s, a)
  {
    a.Pop? && s.queue != [] && s.queue[0].start >= s.workers[a.w].now
  }

  predicate NeverEarly(s: State, run: seq<Action>)
    requires IsRun(s, run)
    decreases |run|
  {
    run == [] || (!StartsEarly(s, run[0]) && NeverEarly(Step(s, run[0]), run[1..]))
  }

  /** Some run starts a job early; cancels says whether it may use Cancel. */
  ghost predicate CanStartEarly(s: State, cancels: bool) {
    exists run :: EarlyRun(s, run, cancels)
  }

  predicate EarlyRun(s: State, run: seq<Action>, cancels: bool) {
    IsRun(s, run) && !NeverEarly(s, run) && (cancels || forall a :: a in run ==> !a.Cancel?)
  }

  /** What a lone worker has seen still holds. */
  predicate SeenHolds(s: State) {
    && |s.workers| <= 1
    && forall w :: 0 <= w < |s.workers| ==>
         && (s.workers[w].SawWork? ==> s.queue != [])
         && (s.workers[w].SawDue? ==> s.queue != [] && s.queue[0].start < s.workers[w].now)
  }

  lemma LoneStep(s: State, a: Action)
    requires Enabled(s, a) && SeenHolds(s) && !a.Cancel?
    ensures SeenHolds(Step(s, a)) && !StartsEarly(s, a)
  {
  }

  /** With one worker and no Cancel, what is started is due, whatever callers queue meanwhile. */
  lemma {:induction false} LoneWorkerIsNeverEarly(s: State, run: seq<Action>)
    requires IsRun(s, run) && SeenHolds(s)
    requires forall a :: a in run ==> !a.Cancel?
    ensures NeverEarly(s, run)
    decreases |run|
  {
    if run != [] {
      assert run[0] in run;
      LoneStep(s, run[0]);
      LoneWorkerIsNeverEarly(Step(s, run[0]), run[1..]);
    }
  }

  lemma EarlyNow(s: State, a: Action, cancels: bool)
    requires Enabled(s, a) && StartsEarly(s, a)
    ensures CanStartEarly(s, cancels)
  {
    var run := [a];
    assert run[1..] == [] && StartsEarly(s, run[0]);
    assert !NeverEarly(s, run);
    assert EarlyRun(s, run, cancels);
  }

  lemma EarlyLater(s: State, a: Action, cancels: bool)
    requires Enabled(s, a) && CanStartEarly(Step(s, a), cancels)
    requires a.Cancel? ==> cancels
    ensures CanStartEarly(s, cancels)
  {
    var rest :| EarlyRun(Step(s, a), rest, cancels);
    var run := [a] + rest;
    assert run[1..] == rest;
    assert EarlyRun(s, run, cancels);
  }

  /** Two workers look at one due job in turn; the first takes it, the second the next job. */
  lemma SecondTakesNext(s: State, v: nat, w: nat, cancels: bool)
    requires v < |s.workers| && w < |s.workers| && v != w
    requires s.workers[v].SawDue? && s.workers[w].SawDue?
    requires |s.queue| > 1 && s.queue[1].start >= s.workers[w].now
    ensures CanStartEarly(s, cancels)
  {
    EarlyNow(Step(s, Pop(v)), Pop(w), cancels);
    EarlyLater(s, Pop(v), cancels);
  }

  /** Each awake worker reaches the same view of a queue whose first job is due. */
  lemma LooksTwice(s: State, w: nat, now: real, cancels: bool)
    requires w < |s.workers| && s.workers[w].Sleeping?
    requires s.queue != [] && s.queue[0].start < now
    requires CanStartEarly(Moved(s, w, SawDue(now)), cancels)
    ensures CanStartEarly(s, cancels)
  {
    var s1 := Step(s, Wake(w, now));
    var s2 := Step(s1, CheckSize(w));
    assert s2 == Moved(s, w, SawWork(now));
    assert Step(s2, CheckTime(w)) == Moved(s, w, SawDue(now));
    EarlyLater(s2, CheckTime(w), cancels);
    EarlyLater(s1, CheckSize(w), cancels);
    EarlyLater(s, Wake(w, now), cancels);
  }

  /** One job that starts at 0 and one that starts at 2, and nobody awake. */
  function TwoJobs(n: nat): State {
    Initial(n).(queue := [Entry(0, 0.0, 0), Entry(1, 2.0, 1)], stamp := 2, submitted := {0, 1})
  }

  lemma ReachTwoJobs(n: nat, cancels: bool)
    requires CanStartEarly(TwoJobs(n), cancels)
    ensures CanStartEarly(Initial(n), cancels)
  {
    var first, second := Submit(0, 0.0, false), Submit(1, 2.0, false);
    var s1 := Step(Initial(n), first);
    assert s1.queue == [Entry(0, 0.0, 0)];
    assert InsertAt(s1.queue, 2.0, 0) == 1;
    assert Step(s1, second) == TwoJobs(n);
    EarlyLater(s1, second, cancels);
    EarlyLater(Initial(n), first, cancels);
  }

  lemma TwoWorkersStartEarly(n: nat, cancels: bool)
    requires n >= 2
    ensures CanStartEarly(Initial(n), cancels)
  {
    var s := TwoJobs(n);
    var s1 := Moved(s, 0, SawDue(1.0));
    SecondTakesNext(Moved(s1, 1, SawDue(1.0)), 0, 1, cancels);
    LooksTwice(s1, 1, 1.0, cancels);
    LooksTwice(s, 0, 1.0, cancels);
    ReachTwoJobs(n, cancels);
  }

  /** A Cancel between a worker's look and its pop. */
  lemma CancelMakesEarly(n: nat)
    requires n >= 1
    ensures CanStartEarly(Initial(n), true)
  {
    var s := TwoJobs(n);
    var s1 := Moved(s, 0, SawDue(1.0));
    assert FindJob(s1.queue, 0, 0) == 0;
    EarlyNow(Step(s1, Cancel(0)), Pop(0), true);
    EarlyLater(s1, Cancel(0), true);
    LooksTwice(s, 0, 1.0, true);
    ReachTwoJobs(n, true);
  }

  /** The look at the queue and the pop are not one step: only a lone worker, with no Cancel, starts no job early. */
  lemma StartsEarlyIff(n: nat)
    ensures CanStartEarly(Initial(n), false) <==> n >= 2
    ensures CanStartEarly(Initial(n), true) <==> n >= 1
  {
    if n >= 2 {
      TwoWorkersStartEarly(n, false);
    } else if CanStartEarly(Initial(n), false) {
      var run :| EarlyRun(Initial(n), run, false);
      LoneWorkerIsNeverEarly(Initial(n), run);
      assert false;
    }
    if n >= 1 {
      CancelMakesEarly(n);
    } else if CanStartEarly(Initial(n), true) {
      var run :| EarlyRun(Initial(n), run, true);
      NoWorkerNoStart(Initial(n), run);
      assert false;
    }
  }

  lemma {:induction false} NoWorkerNoStart(s: State, run: seq<Action>)
    requires IsRun(s, run) && s.workers == []
    ensures NeverEarly(s, run)
    decreases |run|
  {
    if run != [] {
      NoWorkerNoStart(Step(s, run[0]), run[1..]);
    }
  }
}
