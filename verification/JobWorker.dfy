/** Enqueuing and the worker loop as they run, with the faults they meet; each
    is a run of the protocol (internal/jobqueue/queue.go, runner.go). */
module JobWorker {
  import opened Wrappers
  import opened JobProtocol

  /** What a write reports, and whether it took effect: an error may hide a
      write that was made. */
  datatype Reply = Made | NotMade | MadeUnheard

  /** What the environment does to one turn of the worker loop. */
  datatype Turn = Turn(pop: bool, read: bool, mark: Reply, progress: seq<(int, int)>, result: HandlerResult, record: Reply)

  lemma {:induction false} RunThenRun(s: Queue, first: seq<Step>, second: seq<Step>)
    requires IsRun(s, first) && IsRun(After(s, first), second)
    ensures IsRun(s, first + second) && After(s, first + second) == After(After(s, first), second)
    decreases |first|
  {
    if first == [] {
      assert first + second == second;
    } else {
      RunThenRun(Next(s, first[0]), first[1..], second);
      assert (first + second)[1..] == first[1..] + second;
    }
  }

  lemma {:induction false} RunThenStep(s: Queue, steps: seq<Step>, step: Step)
    requires IsRun(s, steps) && Enabled(After(s, steps), step)
    ensures IsRun(s, steps + [step]) && After(s, steps + [step]) == Next(After(s, steps), step)
  {
    assert [step][1..] == [];
    RunThenRun(s, steps, [step]);
  }

  /** The row ended as the handler of this turn returned, with the last progress it reported. */
  predicate EndedBy(row: Job, turn: Turn) {
    && (turn.result.error ==> row.status == Failed)
    && (!turn.result.error && turn.result.partial ==> row.status == CompletedWithErrors)
    && (!turn.result.error && !turn.result.partial ==> row.status == Completed)
    && (turn.progress != [] ==> (row.current, row.total) == turn.progress[|turn.progress| - 1])
  }

  class Broker {
    var rows: map<string, Job>
    var list: seq<string>
    ghost var model: Queue
    ghost var trace: seq<Step>
    ghost const start: Queue

    /** The tables are the protocol's, and everything so far was a run of it. */
    ghost predicate Valid()
      reads this
    {
      && rows == model.rows && list == model.list
      && Initial(start) && IsRun(start, trace) && model == After(start, trace)
      && Inv(model)
    }

    constructor (workers: map<nat, Hold>)
      requires forall w :: w in workers ==> workers[w].Idle?
      ensures Valid() && rows == map[] && list == [] && model.workers == workers
    {
      rows, list := map[], [];
      model := Queue(map[], {}, [], workers, {}, {}, [], [], [], map[]);
      start := Queue(map[], {}, [], workers, {}, {}, [], [], [], map[]);
      trace := [];
      new;
      InitialInv(start);
    }

    ghost method Take(step: Step)
      requires Initial(start) && IsRun(start, trace) && model == After(start, trace) && Inv(model)
      requires Enabled(model, step)
      modifies this`model, this`trace
      ensures model == Next(old(model), step) && trace == old(trace) + [step]
      ensures IsRun(start, trace) && model == After(start, trace) && Inv(model)
    {
      RunThenStep(start, trace, step);
      StepKeepsInv(model, step);
      model := Next(model, step);
      trace := trace + [step];
    }

    /** Inserts the row and pushes its id. A push that fails leaves an orphan
        that stays queued for ever. */
    method Enqueue(id: string, insert: bool, push: Reply) returns (ok: bool)
      requires Valid() && id !in rows
      modifies this
      ensures Valid()
      ensures ok <==> insert && push == Made
      ensures !insert ==> rows == old(rows) && list == old(list) && trace == old(trace)
      ensures insert ==> rows == old(rows)[id := Job(Queued, 0, 0)]
      ensures insert && push != NotMade ==> list == [id] + old(list) && trace == old(trace) + [Insert(id), Push(id)]
      ensures insert && push == NotMade ==> list == old(list) && trace == old(trace) + [Insert(id), LosePush(id)]
    {
      if !insert {
        return false;
      }
      rows := rows[id := Job(Queued, 0, 0)];
      Take(Insert(id));
      if push == NotMade {
        Take(LosePush(id));
      } else {
        list := [id] + list;
        Take(Push(id));
      }
      ok := push == Made;
    }

    /** Takes the oldest id off the list and reads its row. */
    method Dequeue(w: nat, pop: bool, read: bool) returns (job: Option<string>)
      requires Valid() && w in model.workers && model.workers[w].Idle?
      modifies this
      ensures Valid() && rows == old(rows) && model.workers.Keys == old(model.workers.Keys)
      ensures job.Some? <==> old(list) != [] && pop && read
      ensures old(list) == [] ==> list == []
      ensures old(list) != [] ==> list == old(list)[..|old(list)| - 1]
      ensures job.Some? ==> job.value == old(list)[|old(list)| - 1] && At(model, w) == Loaded(job.value) && job.value in rows
      ensures job.None? ==> At(model, w) == Idle
      ensures model.started == old(model.started) && model.returned == old(model.returned)
    {
      if list == [] {
        return None;
      }
      var id := list[|list| - 1];
      list := list[..|list| - 1];
      if !pop {
        // popped by the server, but the reply never arrived
        Take(LosePop);
        return None;
      }
      Take(Pop(w));
      HeldOnce(model, w, w, id);
      if !read {
        Take(LoseLoad(w));
        return None;
      }
      Take(Load(w));
      job := Some(id);
    }

    /** Writes a status without looking at the one it overwrites. */
    method WriteStatus(id: string, status: Status, reply: Reply) returns (ok: bool)
      requires id in rows
      modifies this`rows
      ensures rows == if reply == NotMade then old(rows) else SetStatus(old(rows), id, status)
      ensures ok <==> reply == Made
    {
      if reply != NotMade {
        rows := rows[id := rows[id].(status := status)];
      }
      ok := reply == Made;
    }

    /** The handler reports progress while it runs. */
    method Report(w: nat, id: string, progress: seq<(int, int)>)
      requires Valid() && At(model, w) == Running(id)
      modifies this
      ensures Valid() && At(model, w) == Running(id) && list == old(list)
      ensures rows.Keys == old(rows.Keys) && model.workers.Keys == old(model.workers.Keys) && model.started == old(model.started)
      ensures model.returned == old(model.returned)
      ensures progress != [] ==> id in rows && (rows[id].current, rows[id].total) == progress[|progress| - 1]
    {
      for k := 0 to |progress|
        invariant Valid() && At(model, w) == Running(id) && list == old(list)
        invariant rows.Keys == old(rows.Keys) && model.workers.Keys == old(model.workers.Keys) && model.started == old(model.started)
        invariant model.returned == old(model.returned)
        invariant k > 0 ==> id in rows && (rows[id].current, rows[id].total) == progress[k - 1]
      {
        HeldOnce(model, w, w, id);
        rows := rows[id := rows[id].(current := progress[k].0, total := progress[k].1)];
        Take(Progress(w, progress[k].0, progress[k].1));
      }
    }

    /** Marks a loaded job processing; unless that is confirmed the worker drops it. */
    method MarkProcessing(w: nat, id: string, reply: Reply) returns (marked: bool)
      requires Valid() && id in rows && At(model, w) == Loaded(id)
      modifies this
      ensures Valid() && model.workers.Keys == old(model.workers.Keys) && list == old(list) && rows.Keys == old(rows.Keys)
      ensures marked <==> reply == Made
      ensures At(model, w) == if marked then Running(id) else Idle
      ensures model.started == old(model.started) + if marked then [id] else []
      ensures model.returned == old(model.returned)
    {
      marked := WriteStatus(id, Processing, reply);
      Take(Mark(w, reply != NotMade, marked));
    }

    /** The handler returns and its outcome is recorded: an error first, then what was left
        out. */
    method Record(w: nat, id: string, result: HandlerResult, reply: Reply)
      requires Valid() && At(model, w) == Running(id)
      modifies this
      ensures Valid() && At(model, w) == Idle && model.workers.Keys == old(model.workers.Keys) && list == old(list)
      ensures model.started == old(model.started) && model.returned == old(model.returned)[id := result]
      ensures id in rows && id in old(rows) && rows[id].current == old(rows)[id].current && rows[id].total == old(rows)[id].total
      ensures reply != NotMade && result.error ==> rows[id].status == Failed
      ensures reply != NotMade && !result.error && result.partial ==> rows[id].status == CompletedWithErrors
      ensures reply != NotMade && !result.error && !result.partial ==> rows[id].status == Completed
    {
      HeldOnce(model, w, w, id);
      Take(Return(w, result));
      HeldOnce(model, w, w, id);
      Tell(id, result, reply);
      Take(Finish(w, reply != NotMade));
    }

    method Tell(id: string, result: HandlerResult, reply: Reply)
      requires id in rows
      modifies this`rows
      ensures rows == if reply == NotMade then old(rows) else SetStatus(old(rows), id, EndOf(result))
    {
      var recorded: bool;
      if result.error {
        recorded := WriteStatus(id, Failed, reply);
      } else if result.partial {
        recorded := WriteStatus(id, CompletedWithErrors, reply);
      } else {
        recorded := WriteStatus(id, Completed, reply);
      }
    }

    /** Marks a loaded job, runs its handler and records the outcome. */
    method Process(w: nat, id: string, turn: Turn)
      requires Valid() && id in rows && At(model, w) == Loaded(id)
      modifies this
      ensures Valid() && At(model, w) == Idle && model.workers.Keys == old(model.workers.Keys) && list == old(list)
      ensures model.started == old(model.started) + if turn.mark == Made then [id] else []
      ensures model.returned == if turn.mark == Made then old(model.returned)[id := turn.result] else old(model.returned)
      ensures id in rows && (turn.mark == Made && turn.record != NotMade ==> EndedBy(rows[id], turn))
    {
      var marked := MarkProcessing(w, id, turn.mark);
      if marked {
        Report(w, id, turn.progress);
        Record(w, id, turn.result, turn.record);
      }
    }

    /** One turn of the worker loop: dequeue, mark, dispatch, record. Whatever
        goes wrong, the worker is idle again afterwards and what it did was a
        run of the protocol; without faults the oldest job ends as its handler
        said. */
    method RunOnce(w: nat, turn: Turn)
      requires Valid() && w in model.workers && model.workers[w].Idle?
      modifies this
      ensures Valid() && w in model.workers && model.workers[w].Idle?
      ensures old(list) == [] ==> list == [] && rows == old(rows)
      ensures old(list) != [] ==> list == old(list)[..|old(list)| - 1]
      ensures old(list) != [] ==>
                model.started == if turn.pop && turn.read && turn.mark == Made
                                 then old(model.started) + [old(list)[|old(list)| - 1]] else old(model.started)
      ensures old(list) != [] && turn.pop && turn.read && turn.mark == Made && turn.record != NotMade ==>
                var id := old(list)[|old(list)| - 1];
                && id in rows
                && (turn.result.error ==> rows[id].status == Failed)
                && (!turn.result.error && turn.result.partial ==> rows[id].status == CompletedWithErrors)
                && (!turn.result.error && !turn.result.partial ==> rows[id].status == Completed)
                && (turn.progress != [] ==> (rows[id].current, rows[id].total) == turn.progress[|turn.progress| - 1])
      ensures old(list) != [] && turn.pop && turn.read && turn.mark == Made ==>
                model.returned == old(model.returned)[old(list)[|old(list)| - 1] := turn.result]
      ensures !(old(list) != [] && turn.pop && turn.read && turn.mark == Made) ==> model.returned == old(model.returned)
    {
      var job := Dequeue(w, turn.pop, turn.read);
      if job.None? {
        return;
      }
      Process(w, job.value, turn);
    }

    /** The worker loop until it is told to stop. Whatever goes wrong in it, a job that ended
        completed had its handler return without any error, and one that failed had it fail. */
    method Run(w: nat, turns: seq<Turn>)
      requires Valid() && w in model.workers && model.workers[w].Idle?
      modifies this
      ensures Valid() && w in model.workers && model.workers[w].Idle?
      ensures |list| == if |turns| <= |old(list)| then |old(list)| - |turns| else 0
      ensures forall id :: id in rows && rows[id].status == Completed ==>
                id in model.returned && !model.returned[id].error && !model.returned[id].partial
      ensures forall id :: id in rows && rows[id].status == CompletedWithErrors ==>
                id in model.returned && !model.returned[id].error && model.returned[id].partial
      ensures forall id :: id in rows && rows[id].status == Failed ==> id in model.returned && model.returned[id].error
    {
      for k := 0 to |turns|
        invariant Valid() && w in model.workers && model.workers[w].Idle?
        invariant |list| == if k <= |old(list)| then |old(list)| - k else 0
      {
        RunOnce(w, turns[k]);
      }
    }
  }
}
