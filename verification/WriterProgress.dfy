/**
 Progress in WriterProtocol: once `Flush` is called, a writer is never stuck and every step it takes brings it
 closer to its end.
 */
module WriterProgress {
  import opened Basics
  import opened Sums
  import opened WriterProtocol
  import WriterBudget

  ghost predicate QueuePosted(queue: seq<nat>, tasks: seq<Task>) {
    && (forall k :: 0 <= k < |queue| ==> queue[k] < |tasks| && tasks[queue[k]].pc.Queued?)
    && (forall k, l :: 0 <= k < l < |queue| ==> queue[k] != queue[l])
  }

  /** The channel holds exactly the queued chunks, each once, and the worker holds the chunk it is busy with. */
  ghost predicate Posted(w: Writer) {
    QueuePosted(w.queue, w.tasks) && WorkerPosted(w)
  }

  predicate WorkerPosted(w: Writer) {
    match w.worker
    case Writing(i) => w.At(i, Saving)
    case Releasing(i, _) => w.At(i, Saving) || w.At(i, SaveHalf)
    case Cleaning(i) => w.At(i, CleanHalf)
    case _ => true
  }

  lemma QueueStaysPosted(lim: Limits, limiter: int, w: Writer, step: Step)
    requires QueuePosted(w.queue, w.tasks) && Enabled(w, step)
    ensures var w' := Apply(lim, limiter, w, step).1;
            QueuePosted(w'.queue, w'.tasks)
  {
    ApplyMovesSubject(lim, limiter, w, step);
    if !step.Receive? && !step.Send? {
      QueueUntouched(lim, limiter, w, step);
    }
  }

  /** Producers and `Flush` do not touch the chunk the worker is busy with. */
  lemma OtherStepKeepsWorkerPosted(lim: Limits, limiter: int, w: Writer, step: Step)
    requires WorkerPosted(w) && Enabled(w, step) && LeavesWorker(step)
    ensures WorkerPosted(Apply(lim, limiter, w, step).1)
  {
    ApplyMovesSubject(lim, limiter, w, step);
    OtherStepFrame(lim, limiter, w, step);
    OtherStepSubject(lim, limiter, w, step);
  }

  /** The steps after which the worker is busy with a chunk. */
  predicate TakesUpAChunk(step: Step) {
    step.Take? || step.Write? || step.ReleaseToLimiter? || step.Clean?
  }

  lemma WorkerIsBusyAfter(lim: Limits, limiter: int, w: Writer, step: Step)
    requires Enabled(w, step) && !LeavesWorker(step) && !TakesUpAChunk(step)
    ensures var worker := Apply(lim, limiter, w, step).1.worker;
            !worker.Writing? && !worker.Releasing? && !worker.Cleaning?
  {
  }

  lemma BusyWorkerHoldsItsChunk(lim: Limits, limiter: int, w: Writer, step: Step)
    requires Enabled(w, step) && TakesUpAChunk(step)
    ensures WorkerPosted(Apply(lim, limiter, w, step).1)
  {
  }

  lemma WorkerStaysPosted(lim: Limits, limiter: int, w: Writer, step: Step)
    requires WorkerPosted(w) && Enabled(w, step)
    ensures WorkerPosted(Apply(lim, limiter, w, step).1)
  {
    if LeavesWorker(step) {
      OtherStepKeepsWorkerPosted(lim, limiter, w, step);
    } else if TakesUpAChunk(step) {
      BusyWorkerHoldsItsChunk(lim, limiter, w, step);
    } else {
      WorkerIsBusyAfter(lim, limiter, w, step);
    }
  }

  lemma {:induction false} RunStaysPosted(lim: Limits, world: World, moves: seq<Move>)
    requires Legal(lim, world, moves)
    requires forall j :: 0 <= j < |world.writers| ==> Posted(world.writers[j])
    ensures forall j :: 0 <= j < |Exec(lim, world, moves).writers| ==> Posted(Exec(lim, world, moves).writers[j])
    decreases |moves|
  {
    if moves == [] {
    } else {
      if moves[0].Move? {
        QueueStaysPosted(lim, world.limiter, world.writers[moves[0].j], moves[0].step);
        WorkerStaysPosted(lim, world.limiter, world.writers[moves[0].j], moves[0].step);
      }
      RunStaysPosted(lim, ApplyIn(lim, world, moves[0]), moves[1..]);
    }
  }

  // ---------- never stuck ----------

  /** What the worker can do next while it is not waiting. */
  ghost function WorkerStep(w: Writer): (step: Step)
    requires Posted(w) && !w.worker.Waiting? && !w.worker.Closed?
    ensures Enabled(w, step) && !step.Cancel?
  {
    match w.worker
    case Draining =>
      if i :| 0 <= i < |w.tasks| && w.tasks[i].pc.Buffered? && w.tasks[i].chunk.offset == w.next then Take(i)
      else StopDrain
    case Writing(_) => Write(false, 0, 0)
    case Releasing(i, _) => if w.At(i, Saving) then ReleaseToLimiter else CountReleased
    case Exiting => if i :| 0 <= i < |w.tasks| && w.tasks[i].pc.Buffered? then Clean(i) else Close
    case Cleaning(_) => CountCleaned
  }

  lemma WaitingWorkerGoesOn(w: Writer)
    requires Inv(w) && Posted(w) && w.worker.Waiting? && !w.flush.NotCalled?
    ensures Enabled(w, if w.queue != [] then Receive else HandOverDigest)
  {
  }

  /** What `Flush` does next once the worker has ended. */
  function FlushStep(w: Writer): (step: Step)
    requires w.worker.Closed? && !w.flush.NotCalled? && !w.flush.Returned?
    ensures Enabled(w, step) && !step.Cancel?
  {
    match w.flush
    case Blocked => FlushSeesExit
    case Got(_) => FlushLoads
    case Loaded(_, _) => FlushRemoves
  }

  /** A step that is always there until the worker has ended and `Flush` has returned. */
  ghost function NextStep(w: Writer): (step: Step)
    requires Inv(w) && Posted(w) && !w.flush.NotCalled? && !WriterBudget.AtRest(w)
    ensures Enabled(w, step) && !step.Cancel?
  {
    if w.worker.Waiting? then
      WaitingWorkerGoesOn(w);
      if w.queue != [] then Receive else HandOverDigest
    else if !w.worker.Closed? then WorkerStep(w)
    else FlushStep(w)
  }

  lemma SomeStepIsThere(w: Writer)
    requires Inv(w) && Posted(w) && !w.flush.NotCalled? && !WriterBudget.AtRest(w)
    ensures exists step :: Enabled(w, step) && !step.Cancel?
  {
    var step := NextStep(w);
    assert Enabled(w, step);
  }

  ghost predicate AllPosted(world: World) {
    forall j :: 0 <= j < |world.writers| ==> Posted(world.writers[j])
  }

  lemma InitIsPosted(world: World)
    requires Init(world)
    ensures AllPosted(world)
  {
  }

  /** What holds in every reachable state. */
  lemma Reachable(lim: Limits, world0: World, moves: seq<Move>)
    requires Init(world0) && Legal(lim, world0, moves)
    ensures WorldInv(Exec(lim, world0, moves)) && AllPosted(Exec(lim, world0, moves))
  {
    InitInv(world0);
    InitIsPosted(world0);
    RunKeepsWorldInv(lim, world0, moves);
    RunStaysPosted(lim, world0, moves);
  }

  /** Once `Flush` is called, some goroutine of the file can move until all of them are done, in every reachable
      state. */
  lemma NeverStuck(lim: Limits, world0: World, moves: seq<Move>, j: nat)
    requires Init(world0) && Legal(lim, world0, moves) && j < |Exec(lim, world0, moves).writers|
    requires var w := Exec(lim, world0, moves).writers[j]; !w.flush.NotCalled? && !WriterBudget.AtRest(w)
    ensures exists step :: Enabled(Exec(lim, world0, moves).writers[j], step) && !step.Cancel?
  {
    Reachable(lim, world0, moves);
    SomeStepIsThere(Exec(lim, world0, moves).writers[j]);
  }

  // ---------- every step counts ----------

  /** How many steps a chunk, the worker and `Flush` can still take. */
  function TaskRank(t: Task): int {
    match t.pc
    case Queued => 10
    case Buffered => 8
    case Saving => 6
    case SaveHalf | CleanHalf => 4
    case _ => 0
  }

  function WorkerRank(worker: Worker): nat {
    match worker
    case Writing(_) => 5
    case Draining | Releasing(_, _) => 4
    case Waiting | Cleaning(_) => 3
    case Exiting => 2
    case Closed => 0
  }

  function FlushRank(flush: Flush): nat {
    match flush
    case NotCalled => 4
    case Blocked => 3
    case Got(_) => 2
    case Loaded(_, _) => 1
    case Returned(_, _) => 0
  }

  function Distance(w: Writer): int {
    SumOf(TaskRank, w.tasks) + WorkerRank(w.worker) + FlushRank(w.flush)
  }

  lemma DistanceIsNotNegative(w: Writer)
    ensures Distance(w) >= 0
  {
    SumOfNonNegative(TaskRank, w.tasks);
  }

  /** The chunk, the worker and `Flush` together come closer to their end. */
  predicate RankGoesDown(lim: Limits, limiter: int, w: Writer, step: Step)
    requires Enabled(w, step)
  {
    var w' := Apply(lim, limiter, w, step).1;
    var before := WorkerRank(w.worker) + FlushRank(w.flush);
    var after := WorkerRank(w'.worker) + FlushRank(w'.flush);
    && !w'.flush.NotCalled?
    && match Subject(lim, limiter, w, step)
       case None => after < before
       case Some((i, pc)) => TaskRank(w.tasks[i].(pc := pc)) + after < TaskRank(w.tasks[i]) + before
  }

  lemma OtherRanksGoDown(lim: Limits, limiter: int, w: Writer, step: Step)
    requires TasksFit(w) && !w.flush.NotCalled? && Enabled(w, step) && LeavesWorker(step) && !step.Cancel?
    ensures RankGoesDown(lim, limiter, w, step)
  {
    forall i | 0 <= i < |w.tasks| ensures !MidCall(w.tasks[i].pc) {
      assert TaskFits(w.worker, w.flush, i, w.tasks[i].pc);
    }
  }

  lemma SavingRanksGoDown(lim: Limits, limiter: int, w: Writer, step: Step)
    requires !w.flush.NotCalled? && Enabled(w, step) && Saves(step)
    ensures RankGoesDown(lim, limiter, w, step)
  {
  }

  lemma EndingRanksGoDown(lim: Limits, limiter: int, w: Writer, step: Step)
    requires !w.flush.NotCalled? && Enabled(w, step) && !LeavesWorker(step) && !Saves(step)
    ensures RankGoesDown(lim, limiter, w, step)
  {
  }

  lemma WorkerRanksGoDown(lim: Limits, limiter: int, w: Writer, step: Step)
    requires !w.flush.NotCalled? && Enabled(w, step) && !LeavesWorker(step)
    ensures RankGoesDown(lim, limiter, w, step)
  {
    if Saves(step) {
      SavingRanksGoDown(lim, limiter, w, step);
    } else {
      EndingRanksGoDown(lim, limiter, w, step);
    }
  }

  lemma EveryStepCountsDown(lim: Limits, limiter: int, w: Writer, step: Step)
    requires TasksFit(w) && !w.flush.NotCalled? && Enabled(w, step) && !step.Cancel?
    ensures var w' := Apply(lim, limiter, w, step).1;
            Distance(w') < Distance(w) && !w'.flush.NotCalled?
  {
    ApplyMovesSubject(lim, limiter, w, step);
    if LeavesWorker(step) {
      OtherRanksGoDown(lim, limiter, w, step);
    } else {
      WorkerRanksGoDown(lim, limiter, w, step);
    }
    var subject := Subject(lim, limiter, w, step);
    if subject.Some? {
      SumOfUpdate(TaskRank, w.tasks, subject.value.0, w.tasks[subject.value.0].(pc := subject.value.1));
    }
  }

  /** The steps of one writer in a run, cancellations aside. */
  function Turns(moves: seq<Move>, j: nat): nat {
    if moves == [] then 0
    else (if IsTurn(moves[0], j) then 1 else 0) + Turns(moves[1..], j)
  }

  predicate IsTurn(m: Move, j: nat) {
    m.Move? && m.j == j && !m.step.Cancel?
  }

  lemma OtherMovesKeepDistance(lim: Limits, world: World, m: Move, j: nat)
    requires EnabledIn(world, m) && j < |world.writers| && !IsTurn(m, j)
    ensures var world' := ApplyIn(lim, world, m);
            && j < |world'.writers| && world'.writers[j].flush == world.writers[j].flush
            && Distance(world'.writers[j]) == Distance(world.writers[j])
  {
  }

  /** However all goroutines are interleaved, a writer whose `Flush` is called takes at most as many steps as its
      distance says. */
  lemma {:induction false} TurnsAreBounded(lim: Limits, world: World, moves: seq<Move>, j: nat)
    requires WorldInv(world) && Legal(lim, world, moves)
    requires j < |world.writers| && !world.writers[j].flush.NotCalled?
    ensures j < |Exec(lim, world, moves).writers|
    ensures Turns(moves, j) + Distance(Exec(lim, world, moves).writers[j]) <= Distance(world.writers[j])
    decreases |moves|
  {
    if moves == [] {
    } else {
      if IsTurn(moves[0], j) {
        EveryStepCountsDown(lim, world.limiter, world.writers[j], moves[0].step);
      } else {
        OtherMovesKeepDistance(lim, world, moves[0], j);
      }
      MoveKeepsWorldInv(lim, world, moves[0]);
      TurnsAreBounded(lim, ApplyIn(lim, world, moves[0]), moves[1..], j);
    }
  }

  /** So there is always a way to the end. */
  lemma {:induction false} RestIsReached(lim: Limits, world: World, j: nat) returns (moves: seq<Move>)
    requires WorldInv(world) && j < |world.writers| && !world.writers[j].flush.NotCalled?
    requires AllPosted(world)
    ensures Legal(lim, world, moves) && j < |Exec(lim, world, moves).writers|
    ensures WriterBudget.AtRest(Exec(lim, world, moves).writers[j])
    decreases Distance(world.writers[j])
  {
    var w := world.writers[j];
    if WriterBudget.AtRest(w) {
      moves := [];
    } else {
      var m := Move(j, NextStep(w));
      var next := ApplyIn(lim, world, m);
      EveryStepCountsDown(lim, world.limiter, w, m.step);
      DistanceIsNotNegative(next.writers[j]);
      MoveKeepsWorldInv(lim, world, m);
      QueueStaysPosted(lim, world.limiter, w, m.step);
      WorkerStaysPosted(lim, world.limiter, w, m.step);
      var rest := RestIsReached(lim, next, j);
      WriterBudget.OneMoveFirst(lim, world, m, rest);
      moves := [m] + rest;
    }
  }

  lemma ReachableRestIsReached(lim: Limits, world0: World, before: seq<Move>, j: nat) returns (moves: seq<Move>)
    requires Init(world0) && Legal(lim, world0, before)
    requires j < |Exec(lim, world0, before).writers| && !Exec(lim, world0, before).writers[j].flush.NotCalled?
    ensures var world := Exec(lim, world0, before);
            && Legal(lim, world, moves) && j < |Exec(lim, world, moves).writers|
            && WriterBudget.AtRest(Exec(lim, world, moves).writers[j])
  {
    Reachable(lim, world0, before);
    moves := RestIsReached(lim, Exec(lim, world0, before), j);
  }
}
