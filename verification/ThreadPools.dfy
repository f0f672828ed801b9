/** The thread pool: workers, a job queue under a mutex, a condition variable and the way it is shut down. */
module ThreadPools {
  /** Where a worker is: about to look at the queue with the mutex held, waiting on the condition variable, in a
      job, or gone. */
  datatype Pc = Ready | Asleep | Running(job: nat) | Exited

  /** Jobs are numbered in the order they are enqueued.  `taken` and `finished` log what workers do;
      `before` is how many jobs had been enqueued when the shutdown flag was set. */
  datatype Pool = Pool(workers: seq<Pc>, jobs: seq<nat>, shutdown: bool, notified: bool,
                       enqueued: nat, taken: seq<nat>, finished: seq<nat>, before: nat)

  /** One step of some thread.  Everything done with the mutex held is one step. */
  datatype Step =
    | Enqueue(wake: nat)
    | SetShutdown
    | NotifyAll
    | Look(w: nat)
    | Finish(w: nat)
    | Wake(w: nat)

  function Init(n: nat): Pool { Pool(seq(n, _ => Ready), [], false, false, 0, [], [], 0) }

  predicate NoneAsleep(p: Pool) { forall w :: 0 <= w < |p.workers| ==> !p.workers[w].Asleep? }

  predicate Enabled(p: Pool, step: Step) {
    match step
    case Enqueue(wake) => NoneAsleep(p) || (wake < |p.workers| && p.workers[wake].Asleep?)
    case SetShutdown => !p.shutdown
    case NotifyAll => p.shutdown
    case Look(w) => w < |p.workers| && p.workers[w].Ready?
    case Finish(w) => w < |p.workers| && p.workers[w].Running?
    case Wake(w) => w < |p.workers| && p.workers[w].Asleep?
  }

  function Roused(pc: Pc): Pc { if pc.Asleep? then Ready else pc }

  /** The body of the worker's loop under the mutex: take the first job, leave, or wait. */
  function DoLook(p: Pool, w: nat): Pool
    requires w < |p.workers|
  {
    if |p.jobs| > 0 then
      p.(workers := p.workers[w := Running(p.jobs[0])], jobs := p.jobs[1..], taken := p.taken + [p.jobs[0]])
    else
      p.(workers := p.workers[w := if p.shutdown then Exited else Asleep])
  }

  function Apply(p: Pool, step: Step): Pool
    requires Enabled(p, step)
  {
    match step
    case Enqueue(wake) =>
      p.(jobs := p.jobs + [p.enqueued], enqueued := p.enqueued + 1,
         workers := if wake < |p.workers| then p.workers[wake := Roused(p.workers[wake])] else p.workers)
    case SetShutdown => p.(shutdown := true, before := p.enqueued)
    case NotifyAll => p.(notified := true,
      workers := seq(|p.workers|, w requires 0 <= w < |p.workers| => Roused(p.workers[w])))
    case Look(w) => DoLook(p, w)
    case Finish(w) => p.(workers := p.workers[w := Ready], finished := p.finished + [p.workers[w].job])
    case Wake(w) => p.(workers := p.workers[w := Ready])
  }

  /** `q` is what `steps` make of `p`. */
  predicate Runs(p: Pool, steps: seq<Step>, q: Pool)
    decreases |steps|
  {
    if |steps| == 0 then p == q
    else Enabled(p, steps[0]) && Runs(Apply(p, steps[0]), steps[1..], q)
  }

  // ----- the invariant -----

  /** Taken jobs followed by queued jobs are all the jobs there are, in order. */
  predicate InOrder(p: Pool) {
    && |p.taken| + |p.jobs| == p.enqueued
    && (forall i :: 0 <= i < |p.taken| ==> p.taken[i] == i)
    && (forall i :: 0 <= i < |p.jobs| ==> p.jobs[i] == |p.taken| + i)
  }

  predicate Distinct(xs: seq<nat>) { forall i, j :: 0 <= i < j < |xs| ==> xs[i] != xs[j] }

  predicate Runner(p: Pool, w: nat, j: nat) { w < |p.workers| && p.workers[w] == Running(j) }

  /** A job taken is with one worker or finished, never both and never twice. */
  ghost predicate OnceEach(p: Pool) {
    && Distinct(p.finished)
    && (forall j :: j in p.finished ==> j < |p.taken|)
    && (forall w: nat, j: nat :: Runner(p, w, j) ==> j < |p.taken| && j !in p.finished)
    && (forall v: nat, w: nat, j: nat :: Runner(p, v, j) && Runner(p, w, j) ==> v == w)
    && (forall j: nat :: j < |p.taken| && j !in p.finished ==> exists w :: Runner(p, w, j))
  }

  /** Nobody leaves before the flag is set and everything enqueued until then is taken. */
  predicate Drains(p: Pool) {
    && (p.shutdown ==> p.before <= p.enqueued)
    && (p.notified ==> p.shutdown && NoneAsleep(p))
    && (forall w :: 0 <= w < |p.workers| && p.workers[w].Exited? ==> p.shutdown && p.before <= |p.taken|)
  }

  predicate Live(p: Pool, w: nat) { w < |p.workers| && !p.workers[w].Exited? }

  predicate Awake(p: Pool, w: nat) { w < |p.workers| && (p.workers[w].Ready? || p.workers[w].Running?) }

  /** No wake-up is lost: while a job is queued, some worker that is alive is awake. */
  ghost predicate Attended(p: Pool) {
    |p.jobs| > 0 ==> forall v :: Live(p, v) ==> exists w :: Awake(p, w)
  }

  ghost predicate Inv(p: Pool) { InOrder(p) && OnceEach(p) && Drains(p) && Attended(p) }

  lemma InitInv(n: nat)
    ensures Inv(Init(n))
  {
  }

  lemma OrderKept(p: Pool, step: Step)
    requires InOrder(p) && Enabled(p, step)
    ensures InOrder(Apply(p, step))
  {
  }

  lemma DrainsKept(p: Pool, step: Step)
    requires InOrder(p) && Drains(p) && Enabled(p, step)
    ensures Drains(Apply(p, step))
  {
  }

  lemma AttendedKept(p: Pool, step: Step)
    requires Attended(p) && Enabled(p, step)
    ensures Attended(Apply(p, step))
  {
    var q := Apply(p, step);
    match step
    case Enqueue(wake) =>
      forall v | Live(q, v) ensures exists w :: Awake(q, w) {
        if wake < |p.workers| && p.workers[wake].Asleep? {
          assert Awake(q, wake);
        } else {
          assert Awake(q, v);
        }
      }
    case Look(w) =>
      if |p.jobs| > 0 {
        assert Awake(q, w);
      }
    case Finish(w) => assert Awake(q, w);
    case Wake(w) => assert Awake(q, w);
    case NotifyAll =>
      if |p.jobs| > 0 {
        forall v | Live(q, v) ensures exists w :: Awake(q, w) {
          assert Live(p, v);
          var w :| Awake(p, w);
          assert Awake(q, w);
        }
      }
    case SetShutdown =>
      forall v | Live(q, v) && |q.jobs| > 0 ensures exists w :: Awake(q, w) {
        assert Live(p, v);
        var w :| Awake(p, w);
        assert Awake(q, w);
      }
  }

  /** Steps that move no job: the runners are the same. */
  lemma SameRunners(p: Pool, q: Pool)
    requires OnceEach(p) && q.finished == p.finished && q.taken == p.taken
    requires forall w: nat, j: nat :: Runner(q, w, j) <==> Runner(p, w, j)
    ensures OnceEach(q)
  {
    forall j: nat | j < |q.taken| && j !in q.finished ensures exists w :: Runner(q, w, j) {
      var w :| Runner(p, w, j);
      assert Runner(q, w, j);
    }
  }

  lemma TakeKeeps(p: Pool, w: nat)
    requires InOrder(p) && OnceEach(p) && Enabled(p, Look(w)) && |p.jobs| > 0
    ensures OnceEach(DoLook(p, w))
  {
    var q, n := DoLook(p, w), |p.taken|;
    assert p.jobs[0] == n;
    forall v: nat, j: nat | Runner(q, v, j) ensures if v == w then j == n else Runner(p, v, j) && j < n {
      assert v != w ==> Runner(p, v, j);
    }
    forall j: nat | j < |q.taken| && j !in q.finished ensures exists v :: Runner(q, v, j) {
      if j == n {
        assert Runner(q, w, j);
      } else {
        var v :| Runner(p, v, j);
        assert Runner(q, v, j);
      }
    }
  }

  lemma FinishKeeps(p: Pool, w: nat)
    requires OnceEach(p) && Enabled(p, Finish(w))
    ensures OnceEach(Apply(p, Finish(w)))
  {
    var q, n := Apply(p, Finish(w)), p.workers[w].job;
    assert Runner(p, w, n);
    forall v: nat, j: nat | Runner(q, v, j) ensures v != w && Runner(p, v, j) && j != n {
      assert Runner(p, v, j);
    }
    forall j: nat | j < |q.taken| && j !in q.finished ensures exists v :: Runner(q, v, j) {
      assert q.finished[|p.finished|] == n;
      assert forall i :: 0 <= i < |p.finished| ==> q.finished[i] == p.finished[i];
      var v :| Runner(p, v, j);
      assert Runner(q, v, j);
    }
  }

  lemma OnceEachKept(p: Pool, step: Step)
    requires InOrder(p) && OnceEach(p) && Enabled(p, step)
    ensures OnceEach(Apply(p, step))
  {
    hide OnceEach;
    match step
    case Look(w) => if |p.jobs| > 0 { TakeKeeps(p, w); } else { SameRunners(p, Apply(p, step)); }
    case Finish(w) => FinishKeeps(p, w);
    case Enqueue(_) => SameRunners(p, Apply(p, step));
    case SetShutdown => SameRunners(p, Apply(p, step));
    case NotifyAll => SameRunners(p, Apply(p, step));
    case Wake(_) => SameRunners(p, Apply(p, step));
  }

  lemma StepKeeps(p: Pool, step: Step)
    requires Inv(p) && Enabled(p, step)
    ensures Inv(Apply(p, step))
  {
    hide InOrder, OnceEach, Drains, Attended, Apply;
    OrderKept(p, step);
    OnceEachKept(p, step);
    DrainsKept(p, step);
    AttendedKept(p, step);
  }

  lemma {:induction false} RunKeeps(p: Pool, steps: seq<Step>, q: Pool)
    requires Inv(p) && Runs(p, steps, q)
    ensures Inv(q) && |q.workers| == |p.workers|
    decreases |steps|
  {
    hide Inv;
    if |steps| > 0 {
      StepKeeps(p, steps[0]);
      RunKeeps(Apply(p, steps[0]), steps[1..], q);
    }
  }

  // ----- what this gives, over every run of n workers -----

  predicate Reachable(n: nat, steps: seq<Step>, p: Pool) { Runs(Init(n), steps, p) }

  lemma ReachableInv(n: nat, steps: seq<Step>, p: Pool)
    requires Reachable(n, steps, p)
    ensures Inv(p) && |p.workers| == n
  {
    hide Inv;
    InitInv(n);
    RunKeeps(Init(n), steps, p);
  }

  /** Jobs are taken in the order they were enqueued, and none is finished twice or by two workers. */
  lemma FirstInFirstOut(n: nat, steps: seq<Step>, p: Pool)
    requires Reachable(n, steps, p)
    ensures |p.taken| <= p.enqueued && forall i :: 0 <= i < |p.taken| ==> p.taken[i] == i
    ensures forall i, j :: 0 <= i < j < |p.finished| ==> p.finished[i] != p.finished[j]
    ensures forall j :: j in p.finished ==> j < |p.taken|
    ensures forall v: nat, w: nat, j: nat :: Runner(p, v, j) ==> j !in p.finished && (Runner(p, w, j) ==> v == w)
  {
    ReachableInv(n, steps, p);
  }

  predicate AllExited(p: Pool) { forall w :: 0 <= w < |p.workers| ==> p.workers[w].Exited? }

  /** When every worker has left: every job enqueued before the flag was set has been finished, exactly once; and
      a job enqueued later has been finished exactly if somebody took it. */
  lemma DrainedAtJoin(n: nat, steps: seq<Step>, p: Pool)
    requires Reachable(n, steps, p) && n > 0 && AllExited(p)
    ensures p.shutdown && p.before <= |p.taken| <= p.enqueued
    ensures forall i, j :: 0 <= i < j < |p.finished| ==> p.finished[i] != p.finished[j]
    ensures forall j: nat :: j in p.finished <==> j < |p.taken|
  {
    ReachableInv(n, steps, p);
    assert p.workers[0].Exited?;
    AllFinished(p);
  }

  /** Workers that have left stay away, and nothing is taken any more. */
  lemma {:induction false} GoneStay(p: Pool, steps: seq<Step>, q: Pool)
    requires Runs(p, steps, q) && AllExited(p)
    ensures AllExited(q) && q.taken == p.taken
    decreases |steps|
  {
    if |steps| > 0 {
      GoneStay(Apply(p, steps[0]), steps[1..], q);
    }
  }

  lemma QueuedKept(p: Pool, step: Step, j: nat)
    requires InOrder(p) && Enabled(p, step) && j < p.enqueued && (j < |p.taken| || !AllExited(p))
    ensures var q := Apply(p, step); j < q.enqueued && (j < |q.taken| || !AllExited(q))
  {
    if |p.taken| <= j {
      assert |p.jobs| > 0;
      var v :| 0 <= v < |p.workers| && !p.workers[v].Exited?;
      assert !Apply(p, step).workers[v].Exited?;
    }
  }

  /** As long as a job is queued somebody is left to take it, if somebody was left when it was enqueued. */
  lemma {:induction false} QueuedOrTaken(p: Pool, steps: seq<Step>, q: Pool, j: nat)
    requires Inv(p) && Runs(p, steps, q) && j < p.enqueued && (j < |p.taken| || !AllExited(p))
    ensures j < |q.taken| || !AllExited(q)
    decreases |steps|
  {
    hide OnceEach, Drains, Attended, AllExited;
    if |steps| > 0 {
      StepKeeps(p, steps[0]);
      QueuedKept(p, steps[0], j);
      QueuedOrTaken(Apply(p, steps[0]), steps[1..], q, j);
    }
  }

  /** Once the workers have been joined: a job, whenever it was enqueued, has been run exactly if some worker was
      left at that moment. */
  lemma LateJobExactly(n: nat, before: seq<Step>, p: Pool, wake: nat, after: seq<Step>, q: Pool)
    requires n > 0 && Reachable(n, before, p) && Enabled(p, Enqueue(wake))
    requires Runs(Apply(p, Enqueue(wake)), after, q) && AllExited(q)
    ensures p.enqueued in q.finished <==> !AllExited(p)
  {
    ReachableInv(n, before, p);
    var late := Apply(p, Enqueue(wake));
    StepKeeps(p, Enqueue(wake));
    RunKeeps(late, after, q);
    AllFinished(q);
    if AllExited(p) {
      GoneStay(late, after, q);
    } else {
      var v :| 0 <= v < |p.workers| && !p.workers[v].Exited?;
      assert !late.workers[v].Exited?;
      QueuedOrTaken(late, after, q, p.enqueued);
    }
  }

  lemma AllFinished(p: Pool)
    requires OnceEach(p) && AllExited(p)
    ensures forall j: nat :: j in p.finished <==> j < |p.taken|
  {
    forall j: nat | j < |p.taken| ensures j in p.finished {
      assert forall w: nat :: !Runner(p, w, j);
    }
  }

  /** For example: one worker, which leaves, and then a job, which stays in the queue. */
  lemma LateJobIsLost()
    ensures var p := Pool([Exited], [0], true, true, 1, [], [], 0);
      Reachable(1, [SetShutdown, NotifyAll, Look(0), Enqueue(0)], p) && AllExited(p) && 0 !in p.finished
  {
    var p0 := Init(1);
    var p1 := Apply(p0, SetShutdown);
    var p2 := Apply(p1, NotifyAll);
    var p3 := Apply(p2, Look(0));
    assert p3.workers == [Exited];
    var p4 := Apply(p3, Enqueue(0));
    assert p4 == Pool([Exited], [0], true, true, 1, [], [], 0);
    assert Runs(p4, [], p4);
    assert [Enqueue(0)][1..] == [];
    assert Runs(p3, [Enqueue(0)], p4);
    assert [Look(0), Enqueue(0)][1..] == [Enqueue(0)];
    assert Runs(p2, [Look(0), Enqueue(0)], p4);
    assert [NotifyAll, Look(0), Enqueue(0)][1..] == [Look(0), Enqueue(0)];
    assert Runs(p1, [NotifyAll, Look(0), Enqueue(0)], p4);
    assert [SetShutdown, NotifyAll, Look(0), Enqueue(0)][1..] == [NotifyAll, Look(0), Enqueue(0)];
  }

  /** A step of worker w. */
  function StepOf(p: Pool, w: nat): Step
    requires w < |p.workers|
  {
    match p.workers[w]
    case Running(_) => Finish(w)
    case _ => Look(w)
  }

  /** Nobody is stuck: a queued job always has an awake worker to come for it, as long as one is alive; after
      shutdown has notified, every worker still there can move. */
  lemma NoLostWakeup(n: nat, steps: seq<Step>, p: Pool)
    requires Reachable(n, steps, p)
    ensures |p.jobs| > 0 && !AllExited(p) ==> exists w :: Awake(p, w) && Enabled(p, StepOf(p, w))
    ensures p.notified ==> forall w :: Live(p, w) ==> Enabled(p, StepOf(p, w))
  {
    ReachableInv(n, steps, p);
    if |p.jobs| > 0 && !AllExited(p) {
      var v :| 0 <= v < |p.workers| && !p.workers[v].Exited?;
      assert Live(p, v);
      var w :| Awake(p, w);
      assert Enabled(p, StepOf(p, w));
    }
  }

  function Weight(pc: Pc): nat {
    match pc case Ready => 1 case Asleep => 2 case Running(_) => 2 case Exited => 0
  }

  function Weights(ws: seq<Pc>): nat {
    if |ws| == 0 then 0 else Weight(ws[0]) + Weights(ws[1..])
  }

  /** What is left to do: jobs in the queue, jobs in hand, workers still there. */
  function Left(p: Pool): nat { 2 * |p.jobs| + Weights(p.workers) }

  lemma {:induction false} WeightsUpdate(ws: seq<Pc>, w: nat, pc: Pc)
    requires w < |ws|
    ensures Weights(ws[w := pc]) + Weight(ws[w]) == Weights(ws) + Weight(pc)
  {
    if w > 0 {
      assert ws[w := pc][1..] == ws[1..][w - 1 := pc];
      WeightsUpdate(ws[1..], w - 1, pc);
    } else {
      assert ws[w := pc][1..] == ws[1..];
    }
  }

  /** Once the flag is set, every step of a worker leaves less to do. */
  lemma StepNearer(p: Pool, step: Step)
    requires Enabled(p, step) && p.shutdown && OfWorker(step)
    ensures Apply(p, step).shutdown && Left(Apply(p, step)) < Left(p)
  {
    hide Weights;
    WeightsUpdate(p.workers, step.w, Apply(p, step).workers[step.w]);
  }

  predicate OfWorker(step: Step) { step.Look? || step.Finish? || step.Wake? }

  function WorkerSteps(steps: seq<Step>): nat {
    if |steps| == 0 then 0 else (if OfWorker(steps[0]) then 1 else 0) + WorkerSteps(steps[1..])
  }

  lemma {:induction false} RousedWeighLess(ws: seq<Pc>, vs: seq<Pc>)
    requires |vs| == |ws| && forall w :: 0 <= w < |ws| ==> vs[w] == Roused(ws[w])
    ensures Weights(vs) <= Weights(ws)
  {
    if |ws| > 0 {
      RousedWeighLess(ws[1..], vs[1..]);
    }
  }

  lemma {:induction false} Nearer(p: Pool, steps: seq<Step>, q: Pool)
    requires p.shutdown && Runs(p, steps, q) && forall step :: step in steps ==> !step.Enqueue?
    ensures q.shutdown && WorkerSteps(steps) + Left(q) <= Left(p)
    decreases |steps|
  {
    hide Weights;
    if |steps| > 0 {
      var r := Apply(p, steps[0]);
      if OfWorker(steps[0]) {
        StepNearer(p, steps[0]);
      } else {
        assert steps[0] in steps;
        RousedWeighLess(p.workers, r.workers);
      }
      Nearer(r, steps[1..], q);
    }
  }

  /** Nothing left means that all have left. */
  lemma {:induction false} NothingLeft(ws: seq<Pc>)
    ensures Weights(ws) == 0 <==> forall w :: 0 <= w < |ws| ==> ws[w].Exited?
  {
    if |ws| > 0 {
      NothingLeft(ws[1..]);
      assert forall w :: 1 <= w < |ws| ==> ws[w] == ws[1..][w - 1];
      if forall w :: 0 <= w < |ws| ==> ws[w].Exited? {
        assert ws[0].Exited?;
        assert forall w :: 0 <= w < |ws[1..]| ==> ws[1..][w] == ws[w + 1];
      }
    }
  }

  /** The join ends: whatever the interleaving, with no more jobs enqueued the workers take no more than `Left`
      steps after the flag is set, they have all left when they have taken that many, and once everybody has been
      notified they cannot stop before. */
  lemma JoinTerminates(n: nat, before: seq<Step>, p: Pool, steps: seq<Step>, q: Pool)
    requires Reachable(n, before, p) && p.shutdown && Runs(p, steps, q)
    requires forall step :: step in steps ==> !step.Enqueue?
    ensures WorkerSteps(steps) <= Left(p) && (WorkerSteps(steps) == Left(p) ==> AllExited(q))
    ensures q.notified && (forall w :: 0 <= w < |q.workers| ==> !Enabled(q, StepOf(q, w))) ==> AllExited(q)
  {
    hide Weights;
    ReachableInv(n, before, p);
    RunKeeps(p, steps, q);
    Nearer(p, steps, q);
    NothingLeft(q.workers);
    if q.notified {
      forall w | 0 <= w < |q.workers| && !Enabled(q, StepOf(q, w)) ensures q.workers[w].Exited? {
        assert !q.workers[w].Asleep?;
      }
    }
  }
}
