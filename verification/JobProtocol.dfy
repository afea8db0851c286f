/** The job queue as a protocol: job rows, one shared list, and any number of
    enqueuers and workers that may fail or crash between any two steps
    (internal/jobqueue/queue.go, runner.go, repository.go). */
module JobProtocol {

  datatype Status = Queued | Processing | Completed | CompletedWithErrors | Failed {
    predicate Terminal() {
      this != Queued && this != Processing
    }
  }

  datatype Job = Job(status: Status, current: int, total: int)

  /** What a handler returns: whether it failed, and whether it left part of the work out. */
  datatype HandlerResult = HandlerResult(error: bool, partial: bool)

  /** How a job ends: an error counts before anything else. */
  function EndOf(result: HandlerResult): (end: Status)
    ensures end.Terminal()
  {
    if result.error then Failed else if result.partial then CompletedWithErrors else Completed
  }

  /** The status tells what the handler returned. */
  predicate Tells(status: Status, result: HandlerResult) {
    match status
    case Completed => !result.error && !result.partial
    case CompletedWithErrors => !result.error && result.partial
    case Failed => result.error
    case _ => false
  }

  /** What one worker has in its hands. */
  datatype Hold =
    | Idle
    | Popped(id: string)                   // taken off the list, row not read yet
    | Loaded(id: string)                   // row read, not marked yet
    | Running(id: string)                  // marked processing, handler started
    | Finishing(id: string, end: Status)   // handler returned, outcome not recorded yet
  {
    predicate Holds(j: string) {
      !Idle? && id == j
    }
  }

  /** The shared state. The sets of orphaned and abandoned jobs, the two logs, the list of
      handler starts and the handlers' results only record what happened. */
  datatype Queue = Queue(
    rows: map<string, Job>,
    unpushed: set<string>,       // inserted, push still to come
    list: seq<string>,           // pushed at the front, popped at the back
    workers: map<nat, Hold>,
    orphaned: set<string>,       // inserted, push lost
    abandoned: set<string>,      // popped, then lost by a failure or a crash
    pushed: seq<string>,
    popped: seq<string>,
    started: seq<string>,
    returned: map<string, HandlerResult>)

  datatype Step =
    | Insert(id: string)
    | Push(id: string)
    | LosePush(id: string)
    | Pop(w: nat)
    | LosePop
    | Load(w: nat)
    | LoseLoad(w: nat)
    | Mark(w: nat, effect: bool, ok: bool)
    | Progress(w: nat, cur: int, tot: int)
    | Return(w: nat, result: HandlerResult)
    | Finish(w: nat, effect: bool)
    | Crash(w: nat)

  function At(s: Queue, w: nat): Hold {
    if w in s.workers then s.workers[w] else Idle
  }

  function SetHold(s: Queue, w: nat, h: Hold): Queue {
    s.(workers := s.workers[w := h])
  }

  /** A write may report an error and still have taken effect, never the reverse. */
  predicate Enabled(s: Queue, step: Step) {
    match step
    case Insert(id) => id !in s.rows
    case Push(id) => id in s.unpushed
    case LosePush(id) => id in s.unpushed
    case Pop(w) => w in s.workers && s.workers[w].Idle? && s.list != []
    case LosePop => s.list != []
    case Load(w) => At(s, w).Popped? && At(s, w).id in s.rows
    case LoseLoad(w) => At(s, w).Popped?
    case Mark(w, effect, ok) => At(s, w).Loaded? && (effect ==> At(s, w).id in s.rows) && (ok ==> effect)
    case Progress(w, _, _) => At(s, w).Running? && At(s, w).id in s.rows
    case Return(w, _) => At(s, w).Running?
    case Finish(w, effect) => At(s, w).Finishing? && (effect ==> At(s, w).id in s.rows)
    case Crash(w) => !At(s, w).Idle?
  }

  function SetStatus(rows: map<string, Job>, id: string, status: Status): map<string, Job>
    requires id in rows
  {
    rows[id := rows[id].(status := status)]
  }

  function Abandon(s: Queue, w: nat): Queue
    requires !At(s, w).Idle?
  {
    SetHold(s, w, Idle).(abandoned := s.abandoned + {At(s, w).id})
  }

  /** One step. No status write looks at the status it overwrites. */
  function Next(s: Queue, step: Step): Queue
    requires Enabled(s, step)
  {
    match step
    case Insert(id) => s.(rows := s.rows[id := Job(Queued, 0, 0)], unpushed := s.unpushed + {id})
    case Push(id) => s.(unpushed := s.unpushed - {id}, list := [id] + s.list, pushed := s.pushed + [id])
    case LosePush(id) => s.(unpushed := s.unpushed - {id}, orphaned := s.orphaned + {id})
    case Pop(w) =>
      var id := s.list[|s.list| - 1];
      SetHold(s, w, Popped(id)).(list := s.list[..|s.list| - 1], popped := s.popped + [id])
    case LosePop =>
      var id := s.list[|s.list| - 1];
      s.(list := s.list[..|s.list| - 1], popped := s.popped + [id], abandoned := s.abandoned + {id})
    case Load(w) => SetHold(s, w, Loaded(At(s, w).id))
    case LoseLoad(w) => Abandon(s, w)
    case Mark(w, effect, ok) =>
      var id := At(s, w).id;
      var s1 := if effect then s.(rows := SetStatus(s.rows, id, Processing)) else s;
      if ok then SetHold(s1, w, Running(id)).(started := s.started + [id]) else Abandon(s1, w)
    case Progress(w, cur, tot) =>
      var id := At(s, w).id;
      s.(rows := s.rows[id := s.rows[id].(current := cur, total := tot)])
    case Return(w, result) =>
      SetHold(s, w, Finishing(At(s, w).id, EndOf(result))).(returned := s.returned[At(s, w).id := result])
    case Finish(w, effect) =>
      if effect then SetHold(s, w, Idle).(rows := SetStatus(s.rows, At(s, w).id, At(s, w).end)) else Abandon(s, w)
    case Crash(w) => Abandon(s, w)
  }

  // ---- the invariant of the whole protocol

  /** Where a job can be; a worker's job may have been marked processing. */
  datatype Place = Nowhere | Unpushed | Orphaned | Listed | Held(w: nat, marked: bool) | Abandoned | Done

  predicate Marked(h: Hold) {
    h.Running? || h.Finishing?
  }

  predicate IsAt(s: Queue, id: string, place: Place) {
    match place
    case Nowhere => id !in s.rows
    case Unpushed => id in s.unpushed
    case Orphaned => id in s.orphaned
    case Listed => id in s.list
    case Held(w, marked) => At(s, w).Holds(id) && Marked(At(s, w)) == marked
    case Abandoned => id in s.abandoned
    case Done => id in s.rows && s.rows[id].status.Terminal()
  }

  ghost predicate Placed(s: Queue, id: string) {
    exists place :: IsAt(s, id, place)
  }

  /** No job is in two places. */
  ghost predicate OnePlace(s: Queue) {
    forall id, p1, p2 :: IsAt(s, id, p1) && IsAt(s, id, p2) ==> p1 == p2
  }

  /** The status a job in this place has. */
  predicate StatusAt(place: Place, status: Status) {
    match place
    case Nowhere => false
    case Unpushed => status == Queued
    case Orphaned => status == Queued
    case Listed => status == Queued
    case Held(_, marked) => status == if marked then Processing else Queued
    case Abandoned => status == Queued || status == Processing
    case Done => status.Terminal()
  }

  ghost predicate StatusesFit(s: Queue) {
    forall id, place :: id in s.rows && IsAt(s, id, place) ==> StatusAt(place, s.rows[id].status)
  }

  /** Every job is in exactly one place, with a status that fits it. */
  ghost predicate PlacesFit(s: Queue) {
    && (forall id :: Placed(s, id))
    && OnePlace(s)
    && StatusesFit(s)
  }

  ghost predicate NoRepeats(ids: seq<string>) {
    forall i, j :: 0 <= i < j < |ids| ==> ids[i] != ids[j]
  }

  /** A job whose handler was started is running, finishing, abandoned or done,
      and not queued any more. */
  ghost predicate StartsFit(s: Queue) {
    && NoRepeats(s.started)
    && forall id :: id in s.started ==> id in s.rows && s.rows[id].status != Queued
  }

  /** A status about to be recorded, or recorded, tells what the job's handler returned. */
  ghost predicate EndsFit(s: Queue) {
    && (forall w :: At(s, w).Finishing? ==> At(s, w).id in s.returned && Tells(At(s, w).end, s.returned[At(s, w).id]))
    && (forall id :: id in s.rows && s.rows[id].status.Terminal() ==> id in s.returned && Tells(s.rows[id].status, s.returned[id]))
  }

  function Reverse(ids: seq<string>): seq<string> {
    if ids == [] then [] else Reverse(ids[1..]) + [ids[0]]
  }

  /** What was pushed is what was popped, in that order, then what is listed. */
  ghost predicate InOrder(s: Queue) {
    s.pushed == s.popped + Reverse(s.list)
  }

  ghost predicate Inv(s: Queue) {
    && PlacesFit(s)
    && NoRepeats(s.list)
    && StartsFit(s)
    && EndsFit(s)
    && InOrder(s)
  }

  // ---- each step moves one job and leaves the others where they are

  /** Only this job moved, to that place, with a status that fits. */
  ghost predicate Relocated(s: Queue, s': Queue, id: string, to: Place) {
    && (forall x, p :: x != id ==> (IsAt(s', x, p) <==> IsAt(s, x, p)))
    && (forall p :: IsAt(s', id, p) <==> p == to)
    && (forall x :: x != id ==> (x in s'.rows <==> x in s.rows))
    && (forall x :: x != id && x in s.rows && x in s'.rows ==> s'.rows[x] == s.rows[x])
    && (id in s'.rows ==> StatusAt(to, s'.rows[id].status))
  }

  lemma {:induction false} RelocatedFits(s: Queue, s': Queue, id: string, to: Place)
    requires PlacesFit(s) && Relocated(s, s', id, to)
    ensures PlacesFit(s')
  {
    forall x
      ensures Placed(s', x)
    {
      if x == id {
        assert IsAt(s', id, to);
      } else {
        assert Placed(s, x);
        var p :| IsAt(s, x, p);
        assert IsAt(s', x, p);
      }
    }
    forall x, p1, p2 | IsAt(s', x, p1) && IsAt(s', x, p2)
      ensures p1 == p2
    {
      if x != id {
        assert IsAt(s, x, p1) && IsAt(s, x, p2);
      }
    }
    forall x, p | x in s'.rows && IsAt(s', x, p)
      ensures StatusAt(p, s'.rows[x].status)
    {
      if x != id {
        assert IsAt(s, x, p);
      }
    }
  }

  /** A job that is somewhere has a row. */
  lemma {:induction false} SomewhereHasRow(s: Queue, id: string, p: Place)
    requires OnePlace(s) && IsAt(s, id, p) && p != Nowhere
    ensures id in s.rows
  {
    assert IsAt(s, id, Nowhere) <==> id !in s.rows;
  }

  /** The job a step is about, and where it goes. */
  function Mover(s: Queue, step: Step): string
    requires Enabled(s, step)
  {
    match step
    case Insert(id) => id
    case Push(id) => id
    case LosePush(id) => id
    case Pop(_) => s.list[|s.list| - 1]
    case LosePop => s.list[|s.list| - 1]
    case Load(w) => At(s, w).id
    case LoseLoad(w) => At(s, w).id
    case Mark(w, _, _) => At(s, w).id
    case Progress(w, _, _) => At(s, w).id
    case Return(w, _) => At(s, w).id
    case Finish(w, _) => At(s, w).id
    case Crash(w) => At(s, w).id
  }

  function PlaceBefore(s: Queue, step: Step): Place
    requires Enabled(s, step)
  {
    match step
    case Insert(_) => Nowhere
    case Push(_) => Unpushed
    case LosePush(_) => Unpushed
    case Pop(_) => Listed
    case LosePop => Listed
    case Load(w) => Held(w, false)
    case LoseLoad(w) => Held(w, false)
    case Mark(w, _, _) => Held(w, false)
    case Progress(w, _, _) => Held(w, true)
    case Return(w, _) => Held(w, true)
    case Finish(w, _) => Held(w, true)
    case Crash(w) => Held(w, Marked(At(s, w)))
  }

  function PlaceAfter(step: Step): Place {
    match step
    case Insert(_) => Unpushed
    case Push(_) => Listed
    case LosePush(_) => Orphaned
    case Pop(w) => Held(w, false)
    case LosePop => Abandoned
    case Load(w) => Held(w, false)
    case LoseLoad(w) => Abandoned
    case Mark(w, _, ok) => if ok then Held(w, true) else Abandoned
    case Progress(w, _, _) => Held(w, true)
    case Return(w, _) => Held(w, true)
    case Finish(_, effect) => if effect then Done else Abandoned
    case Crash(_) => Abandoned
  }

  lemma {:induction false} MoverIsThere(s: Queue, step: Step)
    requires Inv(s) && Enabled(s, step)
    ensures IsAt(s, Mover(s, step), PlaceBefore(s, step))
    ensures forall p :: IsAt(s, Mover(s, step), p) ==> p == PlaceBefore(s, step)
    ensures !step.Insert? ==> Mover(s, step) in s.rows && StatusAt(PlaceBefore(s, step), s.rows[Mover(s, step)].status)
  {
    var id, p := Mover(s, step), PlaceBefore(s, step);
    assert IsAt(s, id, p);
    if !step.Insert? {
      SomewhereHasRow(s, id, p);
    }
  }

  /** The last listed job leaves the list, and only it. */
  lemma {:induction false} LastLeaves(list: seq<string>)
    requires list != [] && NoRepeats(list)
    ensures NoRepeats(list[..|list| - 1])
    ensures forall x :: x in list[..|list| - 1] <==> x in list && x != list[|list| - 1]
  {
    var front, last := list[..|list| - 1], list[|list| - 1];
    assert list == front + [last];
    assert last !in front;
  }

  lemma {:induction false} EnqueueRelocates(s: Queue, step: Step)
    requires Inv(s) && Enabled(s, step) && (step.Insert? || step.Push? || step.LosePush?)
    ensures Relocated(s, Next(s, step), Mover(s, step), PlaceAfter(step))
  {
    MoverIsThere(s, step);
    var s', id, to := Next(s, step), Mover(s, step), PlaceAfter(step);
    forall p
      ensures IsAt(s', id, p) <==> p == to
    {
      assert IsAt(s, id, p) ==> p == PlaceBefore(s, step);
    }
  }

  lemma {:induction false} PopRelocates(s: Queue, step: Step)
    requires Inv(s) && Enabled(s, step) && (step.Pop? || step.LosePop?)
    ensures Relocated(s, Next(s, step), Mover(s, step), PlaceAfter(step))
  {
    MoverIsThere(s, step);
    LastLeaves(s.list);
    var s', id, to := Next(s, step), Mover(s, step), PlaceAfter(step);
    forall p
      ensures IsAt(s', id, p) <==> p == to
    {
      assert IsAt(s, id, p) ==> p == PlaceBefore(s, step);
    }
  }

  /** A worker's own step changes its hold, its job's row, and who is abandoned. */
  ghost predicate WorkerMoves(s: Queue, s': Queue, w: nat, id: string, to: Place) {
    && At(s, w).Holds(id)
    && s'.unpushed == s.unpushed && s'.list == s.list && s'.orphaned == s.orphaned
    && (forall v :: v != w ==> At(s', v) == At(s, v))
    && id in s.rows && id in s'.rows && s'.rows == s.rows[id := s'.rows[id]]
    && match to
       case Held(v, marked) => v == w && At(s', w).Holds(id) && Marked(At(s', w)) == marked && s'.abandoned == s.abandoned && !s'.rows[id].status.Terminal()
       case Abandoned => At(s', w) == Idle && s'.abandoned == s.abandoned + {id} && !s'.rows[id].status.Terminal()
       case Done => At(s', w) == Idle && s'.abandoned == s.abandoned && s'.rows[id].status.Terminal()
       case _ => false
  }

  lemma {:induction false} WorkerRelocates(s: Queue, s': Queue, w: nat, id: string, to: Place)
    requires Inv(s) && WorkerMoves(s, s', w, id, to)
    requires StatusAt(to, s'.rows[id].status)
    ensures Relocated(s, s', id, to)
  {
    var from := Held(w, Marked(At(s, w)));
    assert IsAt(s, id, from);
    forall p
      ensures IsAt(s', id, p) <==> p == to
    {
      assert IsAt(s, id, p) ==> p == from;
    }
  }

  /** The worker whose step it is. */
  function WorkerOf(step: Step): nat {
    match step
    case Load(w) => w
    case LoseLoad(w) => w
    case Mark(w, _, _) => w
    case Progress(w, _, _) => w
    case Return(w, _) => w
    case Finish(w, _) => w
    case Crash(w) => w
    case Pop(w) => w
    case _ => 0
  }

  lemma {:induction false} StepRelocates(s: Queue, step: Step)
    requires Inv(s) && Enabled(s, step)
    ensures Relocated(s, Next(s, step), Mover(s, step), PlaceAfter(step))
  {
    if step.Insert? || step.Push? || step.LosePush? {
      EnqueueRelocates(s, step);
    } else if step.Pop? || step.LosePop? {
      PopRelocates(s, step);
    } else {
      MoverIsThere(s, step);
      WorkerRelocates(s, Next(s, step), WorkerOf(step), Mover(s, step), PlaceAfter(step));
    }
  }

  // ---- the rest of the invariant

  lemma {:induction false} ReverseOfPush(id: string, list: seq<string>)
    ensures Reverse([id] + list) == Reverse(list) + [id]
  {
    assert ([id] + list)[1..] == list;
  }

  lemma {:induction false} ReverseOfPop(list: seq<string>)
    requires list != []
    ensures Reverse(list) == [list[|list| - 1]] + Reverse(list[..|list| - 1])
  {
    if |list| > 1 {
      ReverseOfPop(list[1..]);
      assert list[1..][..|list| - 2] == list[..|list| - 1][1..];
    }
  }

  lemma {:induction false} StepKeepsOrder(s: Queue, step: Step)
    requires Inv(s) && Enabled(s, step)
    ensures NoRepeats(Next(s, step).list) && InOrder(Next(s, step))
  {
    match step
    case Push(id) =>
      MoverIsThere(s, step);
      assert IsAt(s, id, Listed) <==> id in s.list;
      ReverseOfPush(id, s.list);
    case Pop(_) =>
      LastLeaves(s.list);
      ReverseOfPop(s.list);
    case LosePop =>
      LastLeaves(s.list);
      ReverseOfPop(s.list);
    case _ =>
  }

  /** A worker starts a handler only on a job that was still queued. */
  lemma {:induction false} StepKeepsStarts(s: Queue, step: Step)
    requires Inv(s) && Enabled(s, step)
    ensures StartsFit(Next(s, step)) && EndsFit(Next(s, step))
  {
    MoverIsThere(s, step);
    var s', id := Next(s, step), Mover(s, step);
    if step.Mark? && step.ok {
      assert id !in s.started && s'.started == s.started + [id];
    } else {
      assert s'.started == s.started;
    }
    forall v | At(s', v).Finishing?
      ensures At(s', v).id in s'.returned && Tells(At(s', v).end, s'.returned[At(s', v).id])
    {
      HeldEndFits(s, step, v);
    }
    forall x | x in s'.rows && s'.rows[x].status.Terminal()
      ensures x in s'.returned && Tells(s'.rows[x].status, s'.returned[x])
    {
      StoredEndFits(s, step, x);
    }
  }

  lemma {:induction false} HeldEndFits(s: Queue, step: Step, v: nat)
    requires Inv(s) && Enabled(s, step) && At(Next(s, step), v).Finishing?
    ensures var s' := Next(s, step); At(s', v).id in s'.returned && Tells(At(s', v).end, s'.returned[At(s', v).id])
  {
    if step.Return? && step.w != v {
      assert At(s, v).Finishing? && At(Next(s, step), v) == At(s, v);
      if At(s, v).id == At(s, step.w).id {
        HeldOnce(s, v, step.w, At(s, v).id);
      }
    } else if !step.Return? {
      assert At(s, v).Finishing? && At(Next(s, step), v) == At(s, v);
    }
  }

  lemma {:induction false} StoredEndFits(s: Queue, step: Step, id: string)
    requires Inv(s) && Enabled(s, step) && id in Next(s, step).rows && Next(s, step).rows[id].status.Terminal()
    ensures var s' := Next(s, step); id in s'.returned && Tells(s'.rows[id].status, s'.returned[id])
  {
    MoverIsThere(s, step);
  }

  /** Every step of the protocol, failures and crashes included, keeps the invariant. */
  lemma {:induction false} StepKeepsInv(s: Queue, step: Step)
    requires Inv(s) && Enabled(s, step)
    ensures Inv(Next(s, step))
  {
    StepRelocates(s, step);
    RelocatedFits(s, Next(s, step), Mover(s, step), PlaceAfter(step));
    StepKeepsOrder(s, step);
    StepKeepsStarts(s, step);
  }

  // ---- whole runs

  /** A queue with nothing in it and some idle workers. */
  ghost predicate Initial(s: Queue) {
    && s.rows == map[] && s.unpushed == s.orphaned == s.abandoned == {}
    && s.list == s.pushed == s.popped == s.started == [] && s.returned == map[]
    && forall w :: At(s, w) == Idle
  }

  lemma {:induction false} InitialInv(s: Queue)
    requires Initial(s)
    ensures Inv(s)
  {
    forall id
      ensures Placed(s, id)
    {
      assert IsAt(s, id, Nowhere);
    }
  }

  ghost predicate IsRun(s: Queue, steps: seq<Step>)
    decreases |steps|
  {
    steps == [] || (Enabled(s, steps[0]) && IsRun(Next(s, steps[0]), steps[1..]))
  }

  ghost function After(s: Queue, steps: seq<Step>): Queue
    requires IsRun(s, steps)
    decreases |steps|
  {
    if steps == [] then s else After(Next(s, steps[0]), steps[1..])
  }

  lemma {:induction false} RunsKeepInv(s: Queue, steps: seq<Step>)
    requires Inv(s) && IsRun(s, steps)
    ensures Inv(After(s, steps))
    decreases |steps|
  {
    if steps != [] {
      StepKeepsInv(s, steps[0]);
      RunsKeepInv(Next(s, steps[0]), steps[1..]);
    }
  }

  lemma {:induction false} HeldOnce(s: Queue, v: nat, w: nat, id: string)
    requires Inv(s) && At(s, v).Holds(id) && At(s, w).Holds(id)
    ensures v == w && id in s.rows && id !in s.list
  {
    assert IsAt(s, id, Held(v, Marked(At(s, v)))) && IsAt(s, id, Held(w, Marked(At(s, w))));
    SomewhereHasRow(s, id, Held(v, Marked(At(s, v))));
    assert IsAt(s, id, Listed) <==> id in s.list;
  }

  /** A job id is in the list at most once, at most one worker holds it and then
      it has a row and is not listed, and its handler was started at most once. */
  ghost predicate AtMostOnce(s: Queue) {
    && NoRepeats(s.list)
    && (forall v, w, id :: At(s, v).Holds(id) && At(s, w).Holds(id) ==> v == w)
    && (forall w, id :: At(s, w).Holds(id) ==> id in s.rows && id !in s.list)
    && NoRepeats(s.started)
  }

  lemma {:induction false} InvMeansAtMostOnce(s: Queue)
    requires Inv(s)
    ensures AtMostOnce(s)
  {
    forall v, w, id | At(s, v).Holds(id) && At(s, w).Holds(id)
      ensures v == w
    {
      HeldOnce(s, v, w, id);
    }
    forall w, id | At(s, w).Holds(id)
      ensures id in s.rows && id !in s.list
    {
      HeldOnce(s, w, w, id);
    }
  }

  /** At-most-once dispatch, in any state any interleaving reaches. */
  lemma {:induction false} DispatchIsAtMostOnce(s: Queue, steps: seq<Step>)
    requires Initial(s) && IsRun(s, steps)
    ensures AtMostOnce(After(s, steps))
  {
    InitialInv(s);
    RunsKeepInv(s, steps);
    InvMeansAtMostOnce(After(s, steps));
  }

  /** In every state any interleaving reaches, a job that ended completed had its handler
      return without any error, one that ended with errors had it leave out part of the work,
      and one that failed had it fail. */
  lemma {:induction false} EndsTellResults(s: Queue, steps: seq<Step>, id: string)
    requires Initial(s) && IsRun(s, steps) && id in After(s, steps).rows
    ensures var s', status := After(s, steps), After(s, steps).rows[id].status;
            && (status == Completed ==> id in s'.returned && !s'.returned[id].error && !s'.returned[id].partial)
            && (status == CompletedWithErrors ==> id in s'.returned && !s'.returned[id].error && s'.returned[id].partial)
            && (status == Failed ==> id in s'.returned && s'.returned[id].error)
  {
    InitialInv(s);
    RunsKeepInv(s, steps);
  }

  /** What a handler returned stays on record, and is what its own step said. */
  lemma {:induction false} ResultsAreRecorded(s: Queue, step: Step)
    requires Inv(s) && Enabled(s, step)
    ensures step.Return? ==> Next(s, step).returned == s.returned[At(s, step.w).id := step.result]
    ensures !step.Return? ==> Next(s, step).returned == s.returned
    ensures step.Progress? ==>
              var id := At(s, step.w).id;
              Next(s, step).rows == s.rows[id := Job(s.rows[id].status, step.cur, step.tot)]
  {
  }

  /** Pops follow push order: what was popped is a prefix of what was pushed. */
  lemma {:induction false} PopsFollowPushes(s: Queue, steps: seq<Step>)
    requires Initial(s) && IsRun(s, steps)
    ensures After(s, steps).popped <= After(s, steps).pushed
  {
    InitialInv(s);
    RunsKeepInv(s, steps);
  }

  /** A status only moves from queued to processing to one terminal value, and
      a row that reached one never changes again. */
  predicate Forward(before: Job, after: Job) {
    && (before.status.Terminal() ==> after == before)
    && (before.status == Processing ==> after.status != Queued)
  }

  /** A terminal status is only ever reached from processing. */
  predicate OneStep(before: Job, after: Job) {
    Forward(before, after) && (before.status == Queued ==> after.status == Queued || after.status == Processing)
  }

  lemma {:induction false} StepMovesForward(s: Queue, step: Step, id: string)
    requires Inv(s) && Enabled(s, step) && id in s.rows
    ensures id in Next(s, step).rows && OneStep(s.rows[id], Next(s, step).rows[id])
  {
    MoverIsThere(s, step);
  }

  /** Though no status write looks at the old status, no run ever moves a job back. */
  lemma {:induction false} StatusesMoveForward(s: Queue, steps: seq<Step>, id: string)
    requires Inv(s) && IsRun(s, steps) && id in s.rows
    ensures id in After(s, steps).rows && Forward(s.rows[id], After(s, steps).rows[id])
    decreases |steps|
  {
    if steps != [] {
      StepMovesForward(s, steps[0], id);
      StepKeepsInv(s, steps[0]);
      StatusesMoveForward(Next(s, steps[0]), steps[1..], id);
    }
  }

  /** Conservation: in every reachable state every job is in exactly one place. */
  lemma {:induction false} JobsAreConserved(s: Queue, steps: seq<Step>, id: string)
    requires Initial(s) && IsRun(s, steps)
    ensures exists p :: IsAt(After(s, steps), id, p) && forall q :: IsAt(After(s, steps), id, q) ==> q == p
    ensures id in After(s, steps).rows <==> !IsAt(After(s, steps), id, Nowhere)
  {
    InitialInv(s);
    RunsKeepInv(s, steps);
    assert Placed(After(s, steps), id);
  }
}
