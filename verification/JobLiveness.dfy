/** Without faults finitely many jobs all reach a terminal status. */
module JobLiveness {
  import opened JobProtocol

  /** The steps that move a job on, each without a fault. */
  predicate Works(step: Step) {
    match step
    case Push(_) => true
    case Pop(_) => true
    case Load(_) => true
    case Mark(_, effect, ok) => effect && ok
    case Return(_, _) => true
    case Finish(_, effect) => effect
    case _ => false
  }

  /** How many steps a held job still needs. */
  function Weight(h: Hold): nat {
    match h
    case Idle => 0
    case Popped(_) => 4
    case Loaded(_) => 3
    case Running(_) => 2
    case Finishing(_, _) => 1
  }

  /** The steps the jobs held by workers below n still need. */
  function InHand(s: Queue, n: nat): nat {
    if n == 0 then 0 else InHand(s, n - 1) + Weight(At(s, n - 1))
  }

  /** All workers have numbers below n. */
  ghost predicate Within(s: Queue, n: nat) {
    forall w :: w in s.workers ==> w < n
  }

  /** The steps all jobs still need. */
  function Remaining(s: Queue, n: nat): nat {
    6 * |s.unpushed| + 5 * |s.list| + InHand(s, n)
  }

  lemma {:induction false} InHandAfter(s: Queue, s': Queue, w: nat, n: nat)
    requires forall v :: v != w ==> At(s', v) == At(s, v)
    ensures InHand(s', n) == InHand(s, n) + if w < n then Weight(At(s', w)) - Weight(At(s, w)) else 0
  {
    if n > 0 {
      InHandAfter(s, s', w, n - 1);
    }
  }

  /** Every step that moves a job on leaves fewer to do. */
  lemma {:induction false} WorkShrinks(s: Queue, step: Step, n: nat)
    requires Inv(s) && Enabled(s, step) && Works(step) && Within(s, n)
    ensures Remaining(Next(s, step), n) < Remaining(s, n) && Within(Next(s, step), n)
  {
    var s' := Next(s, step);
    if step.Push? {
      InHandAfter(s, s', 0, n);
      assert |s.unpushed - {step.id}| == |s.unpushed| - 1;
    } else {
      InHandAfter(s, s', WorkerOf(step), n);
    }
  }

  ghost predicate AllWork(steps: seq<Step>) {
    forall k :: 0 <= k < |steps| ==> Works(steps[k])
  }

  /** A run of such steps is never longer than what was to do. */
  lemma {:induction false} WorkEnds(s: Queue, steps: seq<Step>, n: nat)
    requires Inv(s) && IsRun(s, steps) && AllWork(steps) && Within(s, n)
    ensures |steps| <= Remaining(s, n)
    decreases |steps|
  {
    if steps != [] {
      WorkShrinks(s, steps[0], n);
      StepKeepsInv(s, steps[0]);
      WorkEnds(Next(s, steps[0]), steps[1..], n);
    }
  }

  ghost predicate NothingLost(s: Queue) {
    s.orphaned == {} && s.abandoned == {}
  }

  lemma {:induction false} WorkLosesNothing(s: Queue, steps: seq<Step>)
    requires IsRun(s, steps) && AllWork(steps) && NothingLost(s)
    ensures NothingLost(After(s, steps)) && After(s, steps).rows.Keys == s.rows.Keys
    ensures s.workers.Keys <= After(s, steps).workers.Keys
    decreases |steps|
  {
    if steps != [] {
      WorkLosesNothing(Next(s, steps[0]), steps[1..]);
    }
  }

  /** No job can be moved on. */
  ghost predicate Stuck(s: Queue) {
    forall step :: Works(step) ==> !Enabled(s, step)
  }

  lemma {:induction false} StuckWorkerIsIdle(s: Queue, w: nat)
    requires Inv(s) && Stuck(s)
    ensures At(s, w).Idle?
  {
    var h := At(s, w);
    if !h.Idle? {
      HeldOnce(s, w, w, h.id);
    }
    assert !Enabled(s, Load(w)) && !Enabled(s, Mark(w, true, true)) && !Enabled(s, Return(w, HandlerResult(true, false))) && !Enabled(s, Finish(w, true));
  }

  /** With a worker around and nothing lost, nothing can be moved on only when
      every job is done. */
  lemma {:induction false} StuckMeansDone(s: Queue, w: nat, id: string)
    requires Inv(s) && Stuck(s) && NothingLost(s) && w in s.workers && id in s.rows
    ensures s.rows[id].status.Terminal()
  {
    assert Placed(s, id);
    var p :| IsAt(s, id, p);
    StuckWorkerIsIdle(s, w);
    assert !Enabled(s, Push(id)) && !Enabled(s, Pop(w));
    match p
    case Held(v, _) => StuckWorkerIsIdle(s, v);
    case _ =>
  }

  /** Liveness: from any reachable state in which nothing was lost, the jobs
      are moved on in finitely many steps, in whatever order, and when none is
      left every one of them has a terminal status. */
  lemma {:induction false} AllJobsFinish(s: Queue, steps: seq<Step>, n: nat, w: nat)
    requires Inv(s) && NothingLost(s) && w in s.workers && Within(s, n)
    requires IsRun(s, steps) && AllWork(steps)
    ensures |steps| <= Remaining(s, n)
    ensures Stuck(After(s, steps)) ==> forall id :: id in s.rows ==>
              id in After(s, steps).rows && After(s, steps).rows[id].status.Terminal()
  {
    WorkEnds(s, steps, n);
    RunsKeepInv(s, steps);
    WorkLosesNothing(s, steps);
    if Stuck(After(s, steps)) {
      forall id | id in s.rows
        ensures id in After(s, steps).rows && After(s, steps).rows[id].status.Terminal()
      {
        StuckMeansDone(After(s, steps), w, id);
      }
    }
  }
}
