/**
 What the goroutines of WriterProtocol make of the shared RAM budget: conservation in every reachable state,
 what is left once a file is done, when `Flush` gives back the right amount, and a bound on the RAM in use.
 */
module WriterBudget {
  import opened Basics
  import opened Sums
  import opened ChunkReassembly
  import opened WriterProtocol
  import CacheLimiting

  /** What a half-finished update has told the limiter but not the writer's counter. */
  function PendingWeight(t: Task): int {
    LimiterWeight(t) - ReservedWeight(t)
  }

  /** The writer's counter, its half-finished updates, and what `Flush` has given back. */
  function Owed(w: Writer): int {
    w.reserved + SumOf(PendingWeight, w.tasks) - Flushed(w.flush)
  }

  lemma {:induction false} PendingIsTheDifference(tasks: seq<Task>)
    ensures SumOf(PendingWeight, tasks) == SumOf(LimiterWeight, tasks) - SumOf(ReservedWeight, tasks)
  {
    if tasks == [] {
    } else {
      PendingIsTheDifference(tasks[1..]);
    }
  }

  /** In every state of every run the limiter's counter is the sum over all files of their
      `currentReservedCapacity` and their half-finished updates, less what their `Flush` removed, and of the
      probes under way. */
  lemma RamIsConserved(lim: Limits, world0: World, moves: seq<Move>)
    requires Init(world0) && Legal(lim, world0, moves)
    ensures var world := Exec(lim, world0, moves);
            world.limiter == SumOf(Owed, world.writers) + SumOf(ProbeWeight, world.probes)
  {
    InitInv(world0);
    RunKeepsWorldInv(lim, world0, moves);
    var world := Exec(lim, world0, moves);
    forall j | 0 <= j < |world.writers| ensures Own(world.writers[j]) == Owed(world.writers[j]) {
      PendingIsTheDifference(world.writers[j].tasks);
      assert Inv(world.writers[j]);
    }
    SumOfCongruent(Own, Owed, world.writers);
  }

  predicate AtRest(w: Writer) {
    w.flush.Returned? && w.worker.Closed?
  }

  /** The chunks were still buffered when a successful flush got its digest. */
  predicate FlushedOverAGap(w: Writer) {
    Succeeded(w) && w.flush.result.gap
  }

  predicate Settled(w: Writer) {
    AtRest(w) && !FlushedOverAGap(w)
  }

  lemma RestingWriterOwesItsReservation(w: Writer)
    requires Inv(w) && AtRest(w)
    ensures Own(w) == w.reserved - w.flush.amount <= 0
    ensures !FlushedOverAGap(w) ==> Own(w) == 0
  {
    forall i | 0 <= i < |w.tasks| ensures LimiterWeight(w.tasks[i]) == ReservedWeight(w.tasks[i]) {
      assert TaskFits(w.worker, w.flush, i, w.tasks[i].pc);
    }
    SumOfCongruent(LimiterWeight, ReservedWeight, w.tasks);
  }

  /** Once `Flush` has returned and the worker has ended, a file owes the budget nothing, whether it ended with
      a write error, by cancellation or with everything saved; it never keeps any of it. */
  lemma FlushReturnsTheBudget(lim: Limits, world0: World, moves: seq<Move>, j: nat)
    requires Init(world0) && Legal(lim, world0, moves)
    requires j < |Exec(lim, world0, moves).writers| && AtRest(Exec(lim, world0, moves).writers[j])
    ensures var w := Exec(lim, world0, moves).writers[j];
            Own(w) <= 0 && (!FlushedOverAGap(w) ==> Own(w) == 0)
  {
    InitInv(world0);
    RunKeepsWorldInv(lim, world0, moves);
    RestingWriterOwesItsReservation(Exec(lim, world0, moves).writers[j]);
  }

  ghost predicate AllSettled(world: World) {
    forall j :: 0 <= j < |world.writers| ==> Settled(world.writers[j])
  }

  lemma SettledWorldIsWhole(world: World)
    requires WorldInv(world) && AllSettled(world)
    ensures world.limiter == SumOf(ProbeWeight, world.probes)
  {
    forall j | 0 <= j < |world.writers| ensures Own(world.writers[j]) == 0 {
      assert Inv(world.writers[j]) && Settled(world.writers[j]);
      RestingWriterOwesItsReservation(world.writers[j]);
    }
    SumOfNonNegative(Own, world.writers);
  }

  /** When all files are done and none was flushed over a gap, only probes still under way are in the limiter,
      and the budget is whole again exactly when none of them holds anything. */
  lemma BudgetIsWholeAgain(lim: Limits, world0: World, moves: seq<Move>)
    requires Init(world0) && Legal(lim, world0, moves) && AllSettled(Exec(lim, world0, moves))
    ensures var world := Exec(lim, world0, moves);
            && world.limiter == SumOf(ProbeWeight, world.probes)
            && (world.limiter == 0 <==> forall k :: 0 <= k < |world.probes| ==> ProbeWeight(world.probes[k]) == 0)
  {
    InitInv(world0);
    RunKeepsWorldInv(lim, world0, moves);
    SettledWorldIsWhole(Exec(lim, world0, moves));
    SumOfNonNegative(ProbeWeight, Exec(lim, world0, moves).probes);
  }

  // ---------- exactly when Flush gives back the right amount ----------

  /** All chunks have been received, `Flush` waits, and the worker is about to look at the closed channel. */
  predicate ReadyToHandOver(w: Writer) {
    w.worker.Waiting? && w.queue == [] && w.flush.Blocked?
  }

  predicate NoGapAhead(w: Writer) {
    || (w.flush.Blocked? && w.queue == [] && !w.SomeBuffered())
    || (HasResult(w.flush) && !FlushedOverAGap(w))
  }

  lemma StepKeepsNoGapAhead(lim: Limits, limiter: int, w: Writer, step: Step)
    requires Enabled(w, step) && NoGapAhead(w)
    ensures NoGapAhead(Apply(lim, limiter, w, step).1)
  {
    if LeavesWorker(step) {
      OtherStepKeepsNoGapAhead(lim, limiter, w, step);
    }
  }

  lemma OtherStepKeepsNoGapAhead(lim: Limits, limiter: int, w: Writer, step: Step)
    requires Enabled(w, step) && LeavesWorker(step) && NoGapAhead(w)
    ensures NoGapAhead(Apply(lim, limiter, w, step).1)
  {
  }

  lemma {:induction false} RunKeepsNoGapAhead(lim: Limits, world: World, moves: seq<Move>, j: nat)
    requires Legal(lim, world, moves) && j < |world.writers| && NoGapAhead(world.writers[j])
    ensures j < |Exec(lim, world, moves).writers| && NoGapAhead(Exec(lim, world, moves).writers[j])
    decreases |moves|
  {
    if moves == [] {
    } else {
      if moves[0].Move? && moves[0].j == j {
        StepKeepsNoGapAhead(lim, world.limiter, world.writers[j], moves[0].step);
      }
      RunKeepsNoGapAhead(lim, ApplyIn(lim, world, moves[0]), moves[1..], j);
    }
  }

  lemma OneMoveFirst(lim: Limits, world: World, m: Move, rest: seq<Move>)
    requires EnabledIn(world, m) && Legal(lim, ApplyIn(lim, world, m), rest)
    ensures Legal(lim, world, [m] + rest)
    ensures Exec(lim, world, [m] + rest) == Exec(lim, ApplyIn(lim, world, m), rest)
  {
    assert ([m] + rest)[1..] == rest;
  }

  lemma TwoMovesFirst(lim: Limits, world: World, a: Move, b: Move, rest: seq<Move>)
    requires EnabledIn(world, a) && EnabledIn(ApplyIn(lim, world, a), b)
    requires Legal(lim, ApplyIn(lim, ApplyIn(lim, world, a), b), rest)
    ensures var moves := [a] + ([b] + rest);
            && Legal(lim, world, moves)
            && Exec(lim, world, moves) == Exec(lim, ApplyIn(lim, ApplyIn(lim, world, a), b), rest)
  {
    OneMoveFirst(lim, ApplyIn(lim, world, a), b, rest);
    OneMoveFirst(lim, world, a, [b] + rest);
  }

  function BufferedWeight(t: Task): int {
    if t.pc.Buffered? then 1 else 0
  }

  predicate CleanedOne(w: Writer, w': Writer) {
    && w'.worker.Exiting? && w'.flush == w.flush && w'.file == w.file && w'.cancelled == w.cancelled
    && w'.reserved < w.reserved && GoodTasks(w'.tasks)
    && SumOf(BufferedWeight, w'.tasks) == SumOf(BufferedWeight, w.tasks) - 1
  }

  /** One turn of the deferred clean-up. */
  lemma CleanOne(lim: Limits, limiter: int, w: Writer, i: nat)
    requires GoodTasks(w.tasks) && Enabled(w, Clean(i))
    ensures var (limiter1, w1) := Apply(lim, limiter, w, Clean(i));
            Enabled(w1, CountCleaned) && CleanedOne(w, Apply(lim, limiter1, w1, CountCleaned).1)
  {
    var w1 := Apply(lim, limiter, w, Clean(i)).1;
    assert w.tasks[i].chunk.WellFormed();
    MoveKeepsTasks(w.tasks, i, CleanHalf);
    MoveKeepsTasks(w1.tasks, i, Cleaned);
    SumOfUpdate(BufferedWeight, w.tasks, i, w.tasks[i].(pc := CleanHalf));
    SumOfUpdate(BufferedWeight, w1.tasks, i, w1.tasks[i].(pc := Cleaned));
  }

  lemma CleanTurn(lim: Limits, world: World, j: nat, i: nat)
    requires j < |world.writers| && GoodTasks(world.writers[j].tasks) && Enabled(world.writers[j], Clean(i))
    ensures var world1 := ApplyIn(lim, world, Move(j, Clean(i)));
            && EnabledIn(world1, Move(j, CountCleaned))
            && var world2 := ApplyIn(lim, world1, Move(j, CountCleaned));
               j < |world2.writers| && CleanedOne(world.writers[j], world2.writers[j])
  {
    CleanOne(lim, world.limiter, world.writers[j], i);
  }

  /** The exiting worker cleans up and closes; what it finds in its buffer leaves the writer's counter. */
  lemma {:induction false} CleanUp(lim: Limits, world: World, j: nat) returns (moves: seq<Move>)
    requires j < |world.writers| && GoodTasks(world.writers[j].tasks) && world.writers[j].worker.Exiting?
    ensures Legal(lim, world, moves) && j < |Exec(lim, world, moves).writers|
    ensures var w, w' := world.writers[j], Exec(lim, world, moves).writers[j];
            && w'.worker.Closed? && w'.flush == w.flush && w'.file == w.file && w'.cancelled == w.cancelled
            && w'.reserved <= w.reserved && (w.SomeBuffered() ==> w'.reserved < w.reserved)
    decreases SumOf(BufferedWeight, world.writers[j].tasks)
  {
    var w := world.writers[j];
    if w.SomeBuffered() {
      var i :| 0 <= i < |w.tasks| && w.tasks[i].pc.Buffered?;
      CleanTurn(lim, world, j, i);
      var world1 := ApplyIn(lim, world, Move(j, Clean(i)));
      var world2 := ApplyIn(lim, world1, Move(j, CountCleaned));
      SumOfNonNegative(BufferedWeight, world2.writers[j].tasks);
      var rest := CleanUp(lim, world2, j);
      TwoMovesFirst(lim, world, Move(j, Clean(i)), Move(j, CountCleaned), rest);
      moves := [Move(j, Clean(i))] + ([Move(j, CountCleaned)] + rest);
    } else {
      assert Legal(lim, ApplyIn(lim, world, Move(j, Close)), []);
      OneMoveFirst(lim, world, Move(j, Close), []);
      moves := [Move(j, Close)] + [];
    }
  }

  /** `Flush` gets its digest and goes all the way before the worker does anything. */
  lemma FlushRunsAhead(lim: Limits, world: World, j: nat)
    requires j < |world.writers| && ReadyToHandOver(world.writers[j])
    ensures EnabledIn(world, Move(j, HandOverDigest))
    ensures var world1 := ApplyIn(lim, world, Move(j, HandOverDigest));
            && EnabledIn(world1, Move(j, FlushLoads))
            && var world2 := ApplyIn(lim, world1, Move(j, FlushLoads));
               && EnabledIn(world2, Move(j, FlushRemoves))
               && var world3 := ApplyIn(lim, world2, Move(j, FlushRemoves));
                  && j < |world3.writers|
                  && var w, w' := world.writers[j], world3.writers[j];
                     && w' == w.(flush := w'.flush, worker := Exiting)
                     && w'.flush.Returned? && w'.flush.result.Success? && w'.flush.amount == w.reserved
  {
  }

  /** With chunks still buffered there is a schedule in which the flush reads the counter before the worker
      cleans up, so that the same reservations are removed twice.  The flush returns success and the file stays
      as it is. */
  lemma GapCanReleaseTwice(lim: Limits, world: World, j: nat) returns (moves: seq<Move>)
    requires WorldInv(world) && j < |world.writers|
    requires ReadyToHandOver(world.writers[j]) && world.writers[j].SomeBuffered()
    ensures Legal(lim, world, moves) && j < |Exec(lim, world, moves).writers|
    ensures var w := Exec(lim, world, moves).writers[j];
            && AtRest(w) && Own(w) < 0 && Succeeded(w)
            && w.file == world.writers[j].file && w.cancelled == world.writers[j].cancelled
  {
    var hand, load, remove := Move(j, HandOverDigest), Move(j, FlushLoads), Move(j, FlushRemoves);
    FlushRunsAhead(lim, world, j);
    var world1 := ApplyIn(lim, world, hand);
    var world2 := ApplyIn(lim, world1, load);
    var rest := CleanUp(lim, ApplyIn(lim, world2, remove), j);
    TwoMovesFirst(lim, world1, load, remove, rest);
    OneMoveFirst(lim, world, hand, [load] + ([remove] + rest));
    moves := [hand] + ([load] + ([remove] + rest));
    RunKeepsWorldInv(lim, world, moves);
    RestingWriterOwesItsReservation(Exec(lim, world, moves).writers[j]);
  }

  function TwoChunks(pc0: Pc, pc1: Pc, queue: seq<nat>, worker: Worker, flush: Flush, reserved: int): Writer {
    Writer([Task(Chunk(0, 1, [7]), pc0), Task(Chunk(1, 1, [8]), pc1)], queue, worker, flush, reserved,
           0, [], [], true, false, false, [], false)
  }

  lemma TwoChunksMove(pc0: Pc, pc1: Pc, queue: seq<nat>, worker: Worker, flush: Flush, reserved: int, pc: Pc)
    ensures var w := TwoChunks(pc0, pc1, queue, worker, flush, reserved);
            && w.Move(0, pc) == TwoChunks(pc, pc1, queue, worker, flush, reserved)
            && w.Move(1, pc) == TwoChunks(pc0, pc, queue, worker, flush, reserved)
  {
    var w := TwoChunks(pc0, pc1, queue, worker, flush, reserved);
    assert w.Move(0, pc).tasks == TwoChunks(pc, pc1, queue, worker, flush, reserved).tasks;
    assert w.Move(1, pc).tasks == TwoChunks(pc0, pc, queue, worker, flush, reserved).tasks;
  }

  lemma StepFirst(lim: Limits, a: int, w: Writer, step: Step, a': int, w': Writer, rest: seq<Move>)
    returns (moves: seq<Move>)
    requires Enabled(w, step) && Apply(lim, a, w, step) == (a', w')
    requires Legal(lim, World(a', [w'], []), rest)
    ensures Legal(lim, World(a, [w], []), moves)
    ensures Exec(lim, World(a, [w], []), moves) == Exec(lim, World(a', [w'], []), rest)
  {
    var m := Move(0, step);
    assert ApplyIn(lim, World(a, [w], []), m).writers == [w'];
    OneMoveFirst(lim, World(a, [w], []), m, rest);
    moves := [m] + rest;
  }

  /** The first chunk is scheduled, but reading it fails. */
  lemma FirstChunkFails(lim: Limits, rest: seq<Move>) returns (moves: seq<Move>)
    requires lim == CacheLimiting.Limits(10, 10)
    requires Legal(lim, World(0, [TwoChunks(Failed, Unscheduled, [], Waiting, NotCalled, 0)], []), rest)
    ensures var start := World(0, [TwoChunks(Unscheduled, Unscheduled, [], Waiting, NotCalled, 0)], []);
            && Legal(lim, start, moves)
            && Exec(lim, start, moves)
               == Exec(lim, World(0, [TwoChunks(Failed, Unscheduled, [], Waiting, NotCalled, 0)], []), rest)
  {
    var w0 := TwoChunks(Unscheduled, Unscheduled, [], Waiting, NotCalled, 0);
    var w1 := TwoChunks(Admitted, Unscheduled, [], Waiting, NotCalled, 0);
    var w2 := TwoChunks(Scheduled, Unscheduled, [], Waiting, NotCalled, 1);
    var w3 := TwoChunks(FailHalf, Unscheduled, [], Waiting, NotCalled, 1);
    var w4 := TwoChunks(Failed, Unscheduled, [], Waiting, NotCalled, 0);
    TwoChunksMove(Unscheduled, Unscheduled, [], Waiting, NotCalled, 0, Admitted);
    TwoChunksMove(Admitted, Unscheduled, [], Waiting, NotCalled, 0, Scheduled);
    TwoChunksMove(Scheduled, Unscheduled, [], Waiting, NotCalled, 1, FailHalf);
    TwoChunksMove(FailHalf, Unscheduled, [], Waiting, NotCalled, 1, Failed);
    moves := StepFirst(lim, 0, w3, CountFailed(0), 0, w4, rest);
    moves := StepFirst(lim, 1, w2, FailEnqueue(0), 0, w3, moves);
    moves := StepFirst(lim, 1, w1, CountScheduled(0), 1, w2, moves);
    moves := StepFirst(lim, 0, w0, TryAdd(0, true), 1, w1, moves);
  }

  /** The second chunk arrives and waits for the first. */
  lemma SecondChunkArrives(lim: Limits, rest: seq<Move>) returns (moves: seq<Move>)
    requires lim == CacheLimiting.Limits(10, 10)
    requires Legal(lim, World(1, [TwoChunks(Failed, Buffered, [], Waiting, NotCalled, 1)], []), rest)
    ensures var start := World(0, [TwoChunks(Failed, Unscheduled, [], Waiting, NotCalled, 0)], []);
            && Legal(lim, start, moves)
            && Exec(lim, start, moves)
               == Exec(lim, World(1, [TwoChunks(Failed, Buffered, [], Waiting, NotCalled, 1)], []), rest)
  {
    var w0 := TwoChunks(Failed, Unscheduled, [], Waiting, NotCalled, 0);
    var w1 := TwoChunks(Failed, Admitted, [], Waiting, NotCalled, 0);
    var w2 := TwoChunks(Failed, Scheduled, [], Waiting, NotCalled, 1);
    var w3 := TwoChunks(Failed, Queued, [1], Waiting, NotCalled, 1);
    var w4 := TwoChunks(Failed, Buffered, [], Draining, NotCalled, 1);
    var w5 := TwoChunks(Failed, Buffered, [], Waiting, NotCalled, 1);
    TwoChunksMove(Failed, Unscheduled, [], Waiting, NotCalled, 0, Admitted);
    TwoChunksMove(Failed, Admitted, [], Waiting, NotCalled, 0, Scheduled);
    TwoChunksMove(Failed, Scheduled, [], Waiting, NotCalled, 1, Queued);
    TwoChunksMove(Failed, Queued, [1], Waiting, NotCalled, 1, Buffered);
    assert [1][1..] == [] && w2.queue + [1] == w3.queue;
    moves := StepFirst(lim, 1, w4, StopDrain, 1, w5, rest);
    moves := StepFirst(lim, 1, w3, Receive, 1, w4, moves);
    moves := StepFirst(lim, 1, w2, Send(1), 1, w3, moves);
    moves := StepFirst(lim, 1, w1, CountScheduled(1), 1, w2, moves);
    moves := StepFirst(lim, 0, w0, TryAdd(1, true), 1, w1, moves);
  }

  lemma FlushIsCalled(lim: Limits) returns (moves: seq<Move>)
    ensures var start := World(1, [TwoChunks(Failed, Buffered, [], Waiting, NotCalled, 1)], []);
            && Legal(lim, start, moves)
            && Exec(lim, start, moves) == World(1, [TwoChunks(Failed, Buffered, [], Waiting, Blocked, 1)], [])
  {
    var arrived := TwoChunks(Failed, Buffered, [], Waiting, NotCalled, 1);
    var end := TwoChunks(Failed, Buffered, [], Waiting, Blocked, 1);
    assert Legal(lim, World(1, [end], []), []);
    moves := StepFirst(lim, 1, arrived, CallFlush, 1, end, []);
  }

  /** States with a gap do occur: reading the first of two chunks fails, the second arrives, `Flush` is called. */
  lemma GapIsReachable() returns (lim: Limits, world0: World, moves: seq<Move>)
    ensures Init(world0) && Legal(lim, world0, moves) && |Exec(lim, world0, moves).writers| == 1
    ensures var w := Exec(lim, world0, moves).writers[0];
            && ReadyToHandOver(w) && w.SomeBuffered() && w.file == [] && !w.cancelled
            && |w.tasks| == 2 && w.tasks[0].chunk == Chunk(0, 1, [7]) && w.tasks[1].chunk == Chunk(1, 1, [8])
  {
    lim := CacheLimiting.Limits(10, 10);
    world0 := World(0, [TwoChunks(Unscheduled, Unscheduled, [], Waiting, NotCalled, 0)], []);
    var end := TwoChunks(Failed, Buffered, [], Waiting, Blocked, 1);
    assert end.tasks[1].pc.Buffered?;
    moves := FlushIsCalled(lim);
    moves := SecondChunkArrives(lim, moves);
    moves := FirstChunkFails(lim, moves);
  }

  ghost predicate EndsEven(lim: Limits, world: World, moves: seq<Move>, j: nat) {
    Legal(lim, world, moves) && j < |Exec(lim, world, moves).writers| && AtRest(Exec(lim, world, moves).writers[j]) ==>
      Own(Exec(lim, world, moves).writers[j]) == 0
  }

  /** When the worker is about to hand over the digest: every continuation gives the budget back exactly, if and
      only if nothing is left in the worker's buffer. */
  lemma FlushIsExactIffNoGap(lim: Limits, world: World, j: nat)
    requires WorldInv(world) && j < |world.writers| && ReadyToHandOver(world.writers[j])
    ensures !world.writers[j].SomeBuffered() <==> forall moves :: EndsEven(lim, world, moves, j)
  {
    if world.writers[j].SomeBuffered() {
      var moves := GapCanReleaseTwice(lim, world, j);
      assert !EndsEven(lim, world, moves, j);
    } else {
      forall moves ensures EndsEven(lim, world, moves, j) {
        if Legal(lim, world, moves) {
          RunKeepsWorldInv(lim, world, moves);
          RunKeepsNoGapAhead(lim, world, moves, j);
          var w := Exec(lim, world, moves).writers[j];
          if AtRest(w) {
            RestingWriterOwesItsReservation(w);
          }
        }
      }
    }
  }

  // ---------- the RAM in use ----------

  /** What the limiter has admitted for a chunk and not yet got back. */
  function HeldWeight(t: Task): int {
    match t.pc
    case Admitted | Scheduled | Queued | Buffered | Saving => t.chunk.length
    case _ => 0
  }

  function OvershotWeight(t: Task): int {
    if t.pc.Overshot? then t.chunk.length else 0
  }

  /** What a file holds of the budget. */
  function Held(w: Writer): int {
    SumOf(HeldWeight, w.tasks) - Flushed(w.flush)
  }

  lemma {:induction false} HeldAndOvershot(tasks: seq<Task>)
    ensures SumOf(LimiterWeight, tasks) == SumOf(HeldWeight, tasks) + SumOf(OvershotWeight, tasks)
  {
    if tasks == [] {
    } else {
      HeldAndOvershot(tasks[1..]);
    }
  }

  lemma LimiterCoversTheHeld(world: World)
    requires WorldInv(world)
    ensures SumOf(Held, world.writers) <= world.limiter
  {
    forall j | 0 <= j < |world.writers| ensures Held(world.writers[j]) <= Own(world.writers[j]) {
      var w := world.writers[j];
      assert Inv(w);
      forall i | 0 <= i < |w.tasks| ensures OvershotWeight(w.tasks[i]) >= 0 {
        assert w.tasks[i].chunk.WellFormed();
      }
      HeldAndOvershot(w.tasks);
      SumOfNonNegative(OvershotWeight, w.tasks);
    }
    SumOfMonotone(Held, Own, world.writers);
    SumOfNonNegative(ProbeWeight, world.probes);
  }

  /** A chunk is admitted exactly when it fits the limit it is tested against. */
  lemma AdmittedIffItFits(lim: Limits, limiter: int, w: Writer, i: nat, relaxed: bool)
    requires Enabled(w, TryAdd(i, relaxed))
    ensures var (limiter', w') := Apply(lim, limiter, w, TryAdd(i, relaxed)); var length := w.tasks[i].chunk.length;
            && limiter' == limiter + length && i < |w'.tasks|
            && w'.tasks[i].pc == (if limiter + length <= (if relaxed then lim.limit else lim.strictLimit)
                                  then Admitted else Overshot)
  {
  }

  /** Only an accepted add makes a file hold more. */
  lemma StepHoldsNoMore(lim: Limits, limiter: int, w: Writer, step: Step)
    requires Inv(w) && Enabled(w, step)
    ensures var (limiter', w') := Apply(lim, limiter, w, step);
            || Held(w') <= Held(w)
            || (step.TryAdd? && limiter' <= (if step.relaxed then lim.limit else lim.strictLimit)
                && Held(w') - Held(w) == limiter' - limiter)
  {
    ApplyMovesSubject(lim, limiter, w, step);
    var subject := Subject(lim, limiter, w, step);
    if subject.Some? {
      var (i, pc) := subject.value;
      assert w.tasks[i].chunk.WellFormed();
      SumOfUpdate(HeldWeight, w.tasks, i, w.tasks[i].(pc := pc));
      SubjectHolds(lim, limiter, w, step);
    } else {
      FlushTakesNothing(lim, limiter, w, step);
    }
  }

  lemma SubjectHolds(lim: Limits, limiter: int, w: Writer, step: Step)
    requires Enabled(w, step) && Subject(lim, limiter, w, step).Some?
    ensures var (i, pc) := Subject(lim, limiter, w, step).value;
            && Apply(lim, limiter, w, step).1.flush == w.flush
            && (w.tasks[i].chunk.WellFormed() && HeldWeight(w.tasks[i].(pc := pc)) > HeldWeight(w.tasks[i]) ==>
                  && step.TryAdd? && HeldWeight(w.tasks[i]) == 0
                  && HeldWeight(w.tasks[i].(pc := pc)) == w.tasks[i].chunk.length
                  && Apply(lim, limiter, w, step).0 == limiter + w.tasks[i].chunk.length
                  && limiter + w.tasks[i].chunk.length <= if step.relaxed then lim.limit else lim.strictLimit)
  {
    if !LeavesWorker(step) {
      WorkerSubjectHoldsNoMore(lim, limiter, w, step);
    }
  }

  lemma WorkerSubjectHoldsNoMore(lim: Limits, limiter: int, w: Writer, step: Step)
    requires Enabled(w, step) && !LeavesWorker(step) && Subject(lim, limiter, w, step).Some?
    ensures Apply(lim, limiter, w, step).1.flush == w.flush
    ensures var (i, pc) := Subject(lim, limiter, w, step).value;
            w.tasks[i].chunk.WellFormed() ==> HeldWeight(w.tasks[i].(pc := pc)) <= HeldWeight(w.tasks[i])
  {
  }

  lemma FlushTakesNothing(lim: Limits, limiter: int, w: Writer, step: Step)
    requires Inv(w) && Enabled(w, step) && Subject(lim, limiter, w, step).None?
    ensures Flushed(Apply(lim, limiter, w, step).1.flush) >= Flushed(w.flush)
  {
    if !step.FlushRemoves? {
      OnlyRemovalIsFlushed(lim, limiter, w, step);
    } else {
      forall i | 0 <= i < |w.tasks| ensures ReservedWeight(w.tasks[i]) >= 0 {
        assert w.tasks[i].chunk.WellFormed();
      }
      SumOfNonNegative(ReservedWeight, w.tasks);
    }
  }

  lemma OnlyRemovalIsFlushed(lim: Limits, limiter: int, w: Writer, step: Step)
    requires Enabled(w, step) && !step.FlushRemoves? && Subject(lim, limiter, w, step).None?
    ensures Flushed(Apply(lim, limiter, w, step).1.flush) == Flushed(w.flush)
  {
  }

  lemma MoveKeepsTheBound(lim: Limits, world: World, m: Move)
    requires lim.strictLimit <= lim.limit
    requires WorldInv(world) && EnabledIn(world, m) && SumOf(Held, world.writers) <= lim.limit
    ensures SumOf(Held, ApplyIn(lim, world, m).writers) <= lim.limit
  {
    if m.Move? {
      var w := world.writers[m.j];
      LimiterCoversTheHeld(world);
      StepHoldsNoMore(lim, world.limiter, w, m.step);
      SumOfUpdate(Held, world.writers, m.j, Apply(lim, world.limiter, w, m.step).1);
    }
  }

  lemma {:induction false} RunKeepsTheBound(lim: Limits, world: World, moves: seq<Move>)
    requires lim.strictLimit <= lim.limit
    requires WorldInv(world) && Legal(lim, world, moves) && SumOf(Held, world.writers) <= lim.limit
    ensures SumOf(Held, Exec(lim, world, moves).writers) <= lim.limit
    decreases |moves|
  {
    if moves == [] {
    } else {
      MoveKeepsTheBound(lim, world, moves[0]);
      MoveKeepsWorldInv(lim, world, moves[0]);
      RunKeepsTheBound(lim, ApplyIn(lim, world, moves[0]), moves[1..]);
    }
  }

  /** Without a flush over a gap a file never holds less than nothing, and nothing once `Flush` has returned. */
  lemma HeldIsNotNegative(w: Writer)
    requires Inv(w) && !FlushedOverAGap(w)
    ensures Held(w) >= 0
    ensures w.flush.Returned? ==> Held(w) == 0
  {
    forall i | 0 <= i < |w.tasks|
      ensures HeldWeight(w.tasks[i]) >= 0
      ensures w.flush.Returned? ==> HeldWeight(w.tasks[i]) == ReservedWeight(w.tasks[i])
    {
      assert w.tasks[i].chunk.WellFormed() && TaskFits(w.worker, w.flush, i, w.tasks[i].pc);
    }
    SumOfNonNegative(HeldWeight, w.tasks);
    if w.flush.Returned? {
      SumOfCongruent(HeldWeight, ReservedWeight, w.tasks);
    }
  }

  /** Whatever the interleaving, what all files together hold of the budget stays within the limit; and as long
      as none was flushed over a gap, so does every single one, because none holds less than nothing. */
  lemma RamInUseStaysWithinTheLimit(lim: Limits, world0: World, moves: seq<Move>)
    requires lim.strictLimit <= lim.limit
    requires Init(world0) && Legal(lim, world0, moves)
    ensures var world := Exec(lim, world0, moves);
            && SumOf(Held, world.writers) <= lim.limit
            && ((forall j :: 0 <= j < |world.writers| ==> !FlushedOverAGap(world.writers[j])) ==>
                  forall j :: 0 <= j < |world.writers| ==> 0 <= Held(world.writers[j]) <= lim.limit)
  {
    InitInv(world0);
    forall j | 0 <= j < |world0.writers| ensures Held(world0.writers[j]) == 0 {
      SumOfNonNegative(HeldWeight, world0.writers[j].tasks);
    }
    SumOfNonNegative(Held, world0.writers);
    RunKeepsTheBound(lim, world0, moves);
    RunKeepsWorldInv(lim, world0, moves);
    var world := Exec(lim, world0, moves);
    if forall j :: 0 <= j < |world.writers| ==> !FlushedOverAGap(world.writers[j]) {
      forall j | 0 <= j < |world.writers| ensures Held(world.writers[j]) >= 0 {
        HeldIsNotNegative(world.writers[j]);
      }
      SumOfNonNegative(Held, world.writers);
    }
  }
}
