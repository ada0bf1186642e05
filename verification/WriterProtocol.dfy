/**
 The concurrent protocol around common/chunkedFileWriter.go: the goroutines that schedule and enqueue
 chunks, the worker of each file and `Flush`, one atomic operation at a time and in any order, all
 files sharing one RAM budget.
 */
module WriterProtocol {
  import opened Basics
  import opened Sums
  import opened ChunkReassembly
  import CacheLimiting

  type Limits = CacheLimiting.Limits

  // ---------- state ----------

  /** How far one chunk has come.  The `Half` states lie between the two counter updates of a release. */
  datatype Pc =
    | Unscheduled
    | Overshot    // its add to the limiter went over the limit and must be undone
    | Admitted     // the limiter has accepted it, the writer has not counted it yet
    | Scheduled   // counted by both
    | FailHalf    // EnqueueChunk failed and has told the limiter only
    | Failed
    | Queued      // in the channel
    | Buffered    // in the worker's map
    | Saving      // out of the map, being written
    | SaveHalf
    | Saved
    | CleanHalf   // dropped by the exiting worker, which has told the limiter only
    | Cleaned

  datatype Task = Task(chunk: Chunk, pc: Pc)

  datatype Worker =
    | Waiting                        // for a chunk or for cancellation
    | Draining                       // at the top of the saving loop
    | Writing(i: nat)
    | Releasing(i: nat, ok: bool)
    | Exiting                        // at the top of the deferred clean-up loop
    | Cleaning(i: nat)
    | Closed                         // chunkWriterDone is closed

  /** `gap` is a history variable: chunks were still buffered when the digest was handed over. */
  datatype FlushResult = Success(digestOf: seq<Byte>, gap: bool) | Failure

  datatype Flush =
    | NotCalled
    | Blocked
    | Got(result: FlushResult)
    | Loaded(result: FlushResult, amount: int)
    | Returned(result: FlushResult, amount: int)

  /** `taken` and `cut` are history variables: the chunks the saving loop took, in that order, and whether its
      last round stopped because of the context. */
  datatype Writer = Writer(
    tasks: seq<Task>, queue: seq<nat>, worker: Worker, flush: Flush, reserved: int,
    next: int, file: seq<Byte>, hashed: seq<Byte>, hashing: bool, cancelled: bool, err: bool,
    taken: seq<Chunk>, cut: bool)
  {
    function Move(i: nat, pc: Pc): Writer
      requires i < |tasks|
    {
      this.(tasks := tasks[i := tasks[i].(pc := pc)])
    }

    predicate At(i: nat, pc: Pc) {
      i < |tasks| && tasks[i].pc == pc
    }

    predicate SomeBuffered() {
      exists i :: 0 <= i < |tasks| && tasks[i].pc.Buffered?
    }
  }

  /** A goroutine that monitors a slow read asks for the memory pressure: it adds to the limiter and takes back
      at once, whether the add went over the limit or not. */
  datatype Probe = Quiet | Charged(count: nat)

  datatype World = World(limiter: int, writers: seq<Writer>, probes: seq<Probe>)

  // ---------- steps ----------

  datatype Step =
    | TryAdd(i: nat, relaxed: bool)
    | UndoAdd(i: nat)
    | CountScheduled(i: nat)
    | Send(i: nat)
    | FailEnqueue(i: nat)
    | CountFailed(i: nat)
    | Cancel
    | Receive
    | SeeCancel
    | StopDrain
    | CutDrain
    | Take(i: nat)
    | Write(ok: bool, wrote: nat, seen: nat)
    | ReleaseToLimiter
    | CountReleased
    | HandOverDigest
    | Clean(i: nat)
    | CountCleaned
    | Close
    | CallFlush
    | FlushSeesExit
    | FlushLoads
    | FlushRemoves

  /** A call of WaitToScheduleChunk or EnqueueChunk is under way. */
  predicate MidCall(pc: Pc) {
    pc.Overshot? || pc.Admitted? || pc.FailHalf?
  }

  predicate Enabled(w: Writer, step: Step) {
    match step
    case TryAdd(i, _) => w.flush.NotCalled? && w.At(i, Unscheduled)
    case UndoAdd(i) => w.At(i, Overshot)
    case CountScheduled(i) => w.At(i, Admitted)
    case Send(i) => w.flush.NotCalled? && w.At(i, Scheduled)
    case FailEnqueue(i) => w.flush.NotCalled? && w.At(i, Scheduled)
    case CountFailed(i) => w.At(i, FailHalf)
    case Cancel => true
    case Receive => w.worker.Waiting? && w.queue != [] && w.At(w.queue[0], Queued)
    case SeeCancel => w.worker.Waiting? && w.cancelled
    case StopDrain =>
      && w.worker.Draining?
      && forall i :: 0 <= i < |w.tasks| && w.tasks[i].pc.Buffered? ==> w.tasks[i].chunk.offset != w.next
    case CutDrain => w.worker.Draining? && w.cancelled
    case Take(i) => w.worker.Draining? && w.At(i, Buffered) && w.tasks[i].chunk.offset == w.next
    case Write(ok, wrote, seen) =>
      w.worker.Writing? && w.At(w.worker.i, Saving)
      && wrote <= seen <= |w.tasks[w.worker.i].chunk.data|
      && (ok ==> wrote == |w.tasks[w.worker.i].chunk.data|)
    case ReleaseToLimiter => w.worker.Releasing? && w.At(w.worker.i, Saving)
    case CountReleased => w.worker.Releasing? && w.At(w.worker.i, SaveHalf)
    case HandOverDigest => w.worker.Waiting? && w.queue == [] && w.flush.Blocked?
    case Clean(i) => w.worker.Exiting? && w.At(i, Buffered)
    case CountCleaned => w.worker.Cleaning? && w.At(w.worker.i, CleanHalf)
    case Close => w.worker.Exiting? && !w.SomeBuffered()
    case CallFlush => w.flush.NotCalled? && forall i :: 0 <= i < |w.tasks| ==> !MidCall(w.tasks[i].pc)
    case FlushSeesExit => w.flush.Blocked? && w.worker.Closed?
    case FlushLoads => w.flush.Got?
    case FlushRemoves => w.flush.Loaded?
  }

  /** The effect of a step on the limiter's counter and on the writer it belongs to. */
  function Apply(lim: Limits, limiter: int, w: Writer, step: Step): (int, Writer)
    requires Enabled(w, step)
  {
    match step
    case TryAdd(i, relaxed) =>
      var now := limiter + w.tasks[i].chunk.length;
      (now, w.Move(i, if now <= lim.Allowed(relaxed) then Admitted else Overshot))
    case UndoAdd(i) => (limiter - w.tasks[i].chunk.length, w.Move(i, Unscheduled))
    case CountScheduled(i) =>
      (limiter, w.Move(i, Scheduled).(reserved := w.reserved + w.tasks[i].chunk.length))
    case Send(i) => (limiter, w.Move(i, Queued).(queue := w.queue + [i]))
    case FailEnqueue(i) => (limiter - w.tasks[i].chunk.length, w.Move(i, FailHalf))
    case CountFailed(i) => (limiter, w.Move(i, Failed).(reserved := w.reserved - w.tasks[i].chunk.length))
    case Cancel => (limiter, w.(cancelled := true))
    case Receive => (limiter, w.Move(w.queue[0], Buffered).(queue := w.queue[1..], worker := Draining))
    case SeeCancel => (limiter, w.(err := true, worker := Exiting))
    case StopDrain => (limiter, w.(worker := Waiting, cut := false))
    case CutDrain => (limiter, w.(worker := Waiting, cut := true))
    case Take(i) =>
      (limiter, w.Move(i, Saving).(next := w.next + |w.tasks[i].chunk.data|, taken := w.taken + [w.tasks[i].chunk],
                           worker := Writing(i)))
    case Write(ok, wrote, seen) =>
      var data := w.tasks[w.worker.i].chunk.data;
      (limiter, w.(file := w.file + data[..wrote], hashed := w.hashed + data[..seen],
                   worker := Releasing(w.worker.i, ok), err := w.err || !ok))
    case ReleaseToLimiter => (limiter - |w.tasks[w.worker.i].chunk.data|, w.Move(w.worker.i, SaveHalf))
    case CountReleased =>
      (limiter, w.Move(w.worker.i, Saved).(reserved := w.reserved - w.tasks[w.worker.i].chunk.length,
                                           worker := if w.worker.ok then Draining else Exiting))
    case HandOverDigest =>
      (limiter, w.(flush := Got(Success(if w.hashing then w.hashed else [], w.SomeBuffered())), worker := Exiting))
    case Clean(i) => (limiter - w.tasks[i].chunk.length, w.Move(i, CleanHalf).(worker := Cleaning(i)))
    case CountCleaned =>
      (limiter, w.Move(w.worker.i, Cleaned).(reserved := w.reserved - w.tasks[w.worker.i].chunk.length,
                                             worker := Exiting))
    case Close => (limiter, w.(worker := Closed))
    case CallFlush => (limiter, w.(flush := Blocked))
    case FlushSeesExit => (limiter, w.(flush := Got(Failure)))
    case FlushLoads => (limiter, w.(flush := Loaded(w.flush.result, w.reserved)))
    case FlushRemoves => (limiter - w.flush.amount, w.(flush := Returned(w.flush.result, w.flush.amount)))
  }

  /** One step of one writer, or one of the two halves of a probe. */
  datatype Move =
    | Move(j: nat, step: Step)
    | ProbeAdd(k: nat, count: nat)
    | ProbeRemove(k: nat)

  predicate EnabledIn(world: World, m: Move) {
    match m
    case Move(j, step) => j < |world.writers| && Enabled(world.writers[j], step)
    case ProbeAdd(k, _) => k < |world.probes| && world.probes[k].Quiet?
    case ProbeRemove(k) => k < |world.probes| && world.probes[k].Charged?
  }

  function ApplyIn(lim: Limits, world: World, m: Move): World
    requires EnabledIn(world, m)
  {
    match m
    case Move(j, step) =>
      var (limiter, w) := Apply(lim, world.limiter, world.writers[j], step);
      world.(limiter := limiter, writers := world.writers[j := w])
    case ProbeAdd(k, count) =>
      world.(limiter := world.limiter + count, probes := world.probes[k := Charged(count)])
    case ProbeRemove(k) =>
      world.(limiter := world.limiter - world.probes[k].count, probes := world.probes[k := Quiet])
  }

  predicate Legal(lim: Limits, world: World, moves: seq<Move>)
    decreases |moves|
  {
    moves == [] || (EnabledIn(world, moves[0]) && Legal(lim, ApplyIn(lim, world, moves[0]), moves[1..]))
  }

  function Exec(lim: Limits, world: World, moves: seq<Move>): World
    requires Legal(lim, world, moves)
    decreases |moves|
  {
    if moves == [] then world else Exec(lim, ApplyIn(lim, world, moves[0]), moves[1..])
  }

  predicate GoodTasks(tasks: seq<Task>) {
    && (forall i :: 0 <= i < |tasks| ==> tasks[i].chunk.WellFormed())
    && (forall i, j :: 0 <= i < j < |tasks| ==> tasks[i].chunk.offset != tasks[j].chunk.offset)
  }

  predicate InitWriter(w: Writer) {
    && GoodTasks(w.tasks) && (forall i :: 0 <= i < |w.tasks| ==> w.tasks[i].pc.Unscheduled?)
    && w.queue == [] && w.worker.Waiting? && w.flush.NotCalled? && w.reserved == 0
    && w.next == 0 && w.taken == [] && w.file == [] && w.hashed == [] && !w.cancelled && !w.err && !w.cut
  }

  predicate Init(world: World) {
    && world.limiter == 0
    && (forall j :: 0 <= j < |world.writers| ==> InitWriter(world.writers[j]))
    && (forall k :: 0 <= k < |world.probes| ==> world.probes[k].Quiet?)
  }

  // ---------- what each counter owes to each chunk ----------

  function LimiterWeight(t: Task): int {
    match t.pc
    case Overshot | Admitted | Scheduled | Queued | Buffered | Saving => t.chunk.length
    case _ => 0
  }

  function ReservedWeight(t: Task): int {
    match t.pc
    case Scheduled | FailHalf | Queued | Buffered | Saving | SaveHalf | CleanHalf => t.chunk.length
    case _ => 0
  }

  function Flushed(f: Flush): int {
    if f.Returned? then f.amount else 0
  }

  function ProbeWeight(p: Probe): int {
    if p.Charged? then p.count else 0
  }

  /** The writer's net contribution to the limiter. */
  function Own(w: Writer): int {
    SumOf(LimiterWeight, w.tasks) - Flushed(w.flush)
  }

  lemma MoveSums(tasks: seq<Task>, i: nat, pc: Pc)
    requires i < |tasks|
    ensures var t, t' := tasks[i], tasks[i].(pc := pc);
            && SumOf(LimiterWeight, tasks[i := t'])
               == SumOf(LimiterWeight, tasks) - LimiterWeight(t) + LimiterWeight(t')
            && SumOf(ReservedWeight, tasks[i := t'])
               == SumOf(ReservedWeight, tasks) - ReservedWeight(t) + ReservedWeight(t')
  {
    SumOfUpdate(LimiterWeight, tasks, i, tasks[i].(pc := pc));
    SumOfUpdate(ReservedWeight, tasks, i, tasks[i].(pc := pc));
  }

  ghost predicate Counted(w: Writer) {
    w.reserved == SumOf(ReservedWeight, w.tasks)
  }

  lemma MoveKeepsTasks(tasks: seq<Task>, i: nat, pc: Pc)
    requires GoodTasks(tasks) && i < |tasks|
    ensures GoodTasks(tasks[i := tasks[i].(pc := pc)])
  {
    var tasks' := tasks[i := tasks[i].(pc := pc)];
    forall k, l | 0 <= k < l < |tasks'| ensures tasks'[k].chunk.offset != tasks'[l].chunk.offset {
      assert tasks'[k].chunk == tasks[k].chunk && tasks'[l].chunk == tasks[l].chunk;
    }
  }

  /** The chunk a step moves along, if any, and where to. */
  function Subject(lim: Limits, limiter: int, w: Writer, step: Step): Option<(nat, Pc)>
    requires Enabled(w, step)
  {
    match step
    case TryAdd(i, relaxed) =>
      Some((i, if limiter + w.tasks[i].chunk.length <= lim.Allowed(relaxed) then Admitted else Overshot))
    case UndoAdd(i) => Some((i, Unscheduled))
    case CountScheduled(i) => Some((i, Scheduled))
    case Send(i) => Some((i, Queued))
    case FailEnqueue(i) => Some((i, FailHalf))
    case CountFailed(i) => Some((i, Failed))
    case Receive => Some((w.queue[0], Buffered))
    case Take(i) => Some((i, Saving))
    case ReleaseToLimiter => Some((w.worker.i, SaveHalf))
    case CountReleased => Some((w.worker.i, Saved))
    case Clean(i) => Some((i, CleanHalf))
    case CountCleaned => Some((w.worker.i, Cleaned))
    case _ => None
  }

  lemma ApplyMovesSubject(lim: Limits, limiter: int, w: Writer, step: Step)
    requires Enabled(w, step)
    ensures var w' := Apply(lim, limiter, w, step).1;
            match Subject(lim, limiter, w, step)
            case None => w'.tasks == w.tasks
            case Some((i, pc)) => i < |w.tasks| && w'.tasks == w.tasks[i := w.tasks[i].(pc := pc)]
  {
  }

  lemma StepKeepsTasks(lim: Limits, limiter: int, w: Writer, step: Step)
    requires GoodTasks(w.tasks) && Enabled(w, step)
    ensures GoodTasks(Apply(lim, limiter, w, step).1.tasks)
  {
    ApplyMovesSubject(lim, limiter, w, step);
    match Subject(lim, limiter, w, step)
    case None =>
    case Some((i, pc)) => MoveKeepsTasks(w.tasks, i, pc);
  }

  /** The change a step makes to each counter. */
  function Deltas(lim: Limits, limiter: int, w: Writer, step: Step): (int, int)
    requires Enabled(w, step)
  {
    var (limiter', w') := Apply(lim, limiter, w, step);
    (limiter' - limiter, w'.reserved - w.reserved)
  }

  /** The steps of the producers and of `Flush`; the others are the worker's. */
  predicate LeavesWorker(step: Step) {
    match step
    case TryAdd(_, _) | UndoAdd(_) | CountScheduled(_) | Send(_) | FailEnqueue(_) | CountFailed(_) | Cancel => true
    case CallFlush | FlushSeesExit | FlushLoads | FlushRemoves => true
    case _ => false
  }

  /** Of the worker's steps, those of the saving loop; the others are those of the loop around it and of the end. */
  predicate Saves(step: Step) {
    match step
    case StopDrain | CutDrain | Take(_) | Write(_, _, _) | ReleaseToLimiter | CountReleased => true
    case _ => false
  }

  /** The counters change by what the chunk that moves, or `Flush`, contributes. */
  predicate DeltasAreWeights(lim: Limits, limiter: int, w: Writer, step: Step)
    requires Enabled(w, step)
  {
    var (dLimiter, dReserved) := Deltas(lim, limiter, w, step);
    match Subject(lim, limiter, w, step)
    case None =>
      dReserved == 0 && dLimiter == Flushed(w.flush) - Flushed(Apply(lim, limiter, w, step).1.flush)
    case Some((i, pc)) =>
      && dLimiter == LimiterWeight(w.tasks[i].(pc := pc)) - LimiterWeight(w.tasks[i])
      && dReserved == ReservedWeight(w.tasks[i].(pc := pc)) - ReservedWeight(w.tasks[i])
      && Apply(lim, limiter, w, step).1.flush == w.flush
  }

  lemma OtherDeltas(lim: Limits, limiter: int, w: Writer, step: Step)
    requires Enabled(w, step) && LeavesWorker(step)
    ensures DeltasAreWeights(lim, limiter, w, step)
  {
  }

  lemma SavingDeltas(lim: Limits, limiter: int, w: Writer, step: Step)
    requires Enabled(w, step) && Saves(step)
    requires step.ReleaseToLimiter? ==> w.tasks[w.worker.i].chunk.length == |w.tasks[w.worker.i].chunk.data|
    ensures DeltasAreWeights(lim, limiter, w, step)
  {
  }

  lemma EndingDeltas(lim: Limits, limiter: int, w: Writer, step: Step)
    requires Enabled(w, step) && !LeavesWorker(step) && !Saves(step)
    ensures DeltasAreWeights(lim, limiter, w, step)
  {
  }

  lemma StepDeltas(lim: Limits, limiter: int, w: Writer, step: Step)
    requires Enabled(w, step)
    requires step.ReleaseToLimiter? ==> w.tasks[w.worker.i].chunk.length == |w.tasks[w.worker.i].chunk.data|
    ensures DeltasAreWeights(lim, limiter, w, step)
  {
    if LeavesWorker(step) {
      OtherDeltas(lim, limiter, w, step);
    } else if Saves(step) {
      SavingDeltas(lim, limiter, w, step);
    } else {
      EndingDeltas(lim, limiter, w, step);
    }
  }

  /** Every step changes the limiter by what it changes the writer's contribution, and keeps the writer's own
      counter exact. */
  lemma StepConserves(lim: Limits, limiter: int, w: Writer, step: Step)
    requires GoodTasks(w.tasks) && Counted(w) && Enabled(w, step)
    ensures var (limiter', w') := Apply(lim, limiter, w, step);
            Counted(w') && limiter' - limiter == Own(w') - Own(w)
  {
    if step.ReleaseToLimiter? {
      assert w.tasks[w.worker.i].chunk.WellFormed();
    }
    ApplyMovesSubject(lim, limiter, w, step);
    StepDeltas(lim, limiter, w, step);
    var subject := Subject(lim, limiter, w, step);
    if subject.Some? {
      MoveSums(w.tasks, subject.value.0, subject.value.1);
    }
  }

  // ---------- which chunk may be where ----------

  /** A chunk between two updates is the one its worker is busy with; a closed worker has left nothing
      buffered; and once `Flush` is called no producer is half way. */
  predicate TaskFits(worker: Worker, flush: Flush, i: nat, pc: Pc) {
    && (pc.Saving? ==> (worker.Writing? || worker.Releasing?) && worker.i == i)
    && (pc.SaveHalf? ==> worker.Releasing? && worker.i == i)
    && (pc.CleanHalf? ==> worker.Cleaning? && worker.i == i)
    && (pc.Buffered? ==> !worker.Closed?)
    && (MidCall(pc) ==> flush.NotCalled?)
  }

  ghost predicate TasksFit(w: Writer) {
    forall i :: 0 <= i < |w.tasks| ==> TaskFits(w.worker, w.flush, i, w.tasks[i].pc)
  }

  predicate HasResult(f: Flush) {
    f.Got? || f.Loaded? || f.Returned?
  }

  /** How `Flush` and the worker know of each other's end, and what `Flush` read from the counter. */
  ghost predicate FlushFits(w: Writer) {
    && (HasResult(w.flush) && w.flush.result.Failure? ==> w.worker.Closed?)
    && (HasResult(w.flush) && w.flush.result.Success? ==> w.worker.Exiting? || w.worker.Cleaning? || w.worker.Closed?)
    && (HasResult(w.flush) && w.flush.result.Success? && !w.flush.result.gap ==>
          !w.SomeBuffered() && !w.worker.Cleaning?)
    && (w.flush.Loaded? || w.flush.Returned? ==> w.reserved <= w.flush.amount)
    && ((w.flush.Loaded? || w.flush.Returned?) && (w.flush.result.Failure? || !w.flush.result.gap) ==>
          w.reserved == w.flush.amount)
  }

  lemma OtherStepKeepsTaskFit(lim: Limits, limiter: int, w: Writer, step: Step, i: nat)
    requires i < |w.tasks| && Enabled(w, step) && LeavesWorker(step)
    requires TaskFits(w.worker, w.flush, i, w.tasks[i].pc)
    ensures var w' := Apply(lim, limiter, w, step).1;
            i < |w'.tasks| && TaskFits(w'.worker, w'.flush, i, w'.tasks[i].pc)
  {
    if step.CallFlush? {
      assert !MidCall(w.tasks[i].pc);
    }
  }

  lemma WorkerStepKeepsTaskFit(lim: Limits, limiter: int, w: Writer, step: Step, i: nat)
    requires i < |w.tasks| && Enabled(w, step) && !LeavesWorker(step)
    requires TaskFits(w.worker, w.flush, i, w.tasks[i].pc)
    ensures var w' := Apply(lim, limiter, w, step).1;
            i < |w'.tasks| && TaskFits(w'.worker, w'.flush, i, w'.tasks[i].pc)
  {
    if step.Close? {
      assert !w.tasks[i].pc.Buffered?;
    }
  }

  lemma StepKeepsTasksFit(lim: Limits, limiter: int, w: Writer, step: Step)
    requires TasksFit(w) && Enabled(w, step)
    ensures TasksFit(Apply(lim, limiter, w, step).1)
  {
    var w' := Apply(lim, limiter, w, step).1;
    ApplyMovesSubject(lim, limiter, w, step);
    forall i | 0 <= i < |w'.tasks| ensures TaskFits(w'.worker, w'.flush, i, w'.tasks[i].pc) {
      assert TaskFits(w.worker, w.flush, i, w.tasks[i].pc);
      if LeavesWorker(step) {
        OtherStepKeepsTaskFit(lim, limiter, w, step, i);
      } else {
        WorkerStepKeepsTaskFit(lim, limiter, w, step, i);
      }
    }
  }

  lemma OtherStepKeepsFlushFit(lim: Limits, limiter: int, w: Writer, step: Step)
    requires LeavesWorker(step) && TasksFit(w) && FlushFits(w) && Enabled(w, step)
    ensures FlushFits(Apply(lim, limiter, w, step).1)
  {
    var subject := Subject(lim, limiter, w, step);
    if subject.Some? {
      var i := subject.value.0;
      assert TaskFits(w.worker, w.flush, i, w.tasks[i].pc);
    }
  }

  lemma WorkerStepKeepsFlushFit(lim: Limits, limiter: int, w: Writer, step: Step)
    requires !LeavesWorker(step) && GoodTasks(w.tasks) && FlushFits(w) && Enabled(w, step)
    ensures FlushFits(Apply(lim, limiter, w, step).1)
  {
    if step.CountCleaned? {
      assert w.tasks[w.worker.i].chunk.WellFormed();
    }
  }

  // ---------- what is in the file ----------

  predicate TakenOut(pc: Pc) {
    pc.Saving? || pc.SaveHalf? || pc.Saved?
  }

  predicate LeftBehind(pc: Pc) {
    pc.Buffered? || pc.CleanHalf? || pc.Cleaned?
  }

  predicate Ending(worker: Worker) {
    worker.Exiting? || worker.Cleaning? || worker.Closed?
  }

  /** A chunk is in `taken` exactly when the saving loop took it. */
  predicate TakenFits(taken: seq<Chunk>, t: Task) {
    t.chunk in taken <==> TakenOut(t.pc)
  }

  /** While the worker is not saving, and its last round was not cut short, no buffered chunk starts at `next`. */
  predicate LeftFits(worker: Worker, failing: bool, next: int, t: Task) {
    && (t.pc.CleanHalf? || t.pc.Cleaned? ==> Ending(worker))
    && (LeftBehind(t.pc) && (worker.Waiting? || Ending(worker)) && !failing ==> t.chunk.offset != next)
  }

  predicate QueueFits(queue: seq<nat>, i: nat, t: Task) {
    t.pc.Queued? ==> i in queue
  }

  predicate TaskFiled(w: Writer, i: nat)
    requires i < |w.tasks|
  {
    && TakenFits(w.taken, w.tasks[i])
    && LeftFits(w.worker, w.err || w.cut, w.next, w.tasks[i])
    && QueueFits(w.queue, i, w.tasks[i])
  }

  ghost predicate TasksFiled(w: Writer) {
    forall i :: 0 <= i < |w.tasks| ==> TaskFiled(w, i)
  }

  predicate HasChunk(tasks: seq<Task>, c: Chunk) {
    exists i :: 0 <= i < |tasks| && tasks[i].chunk == c
  }

  /** The chunks the file should consist of by now. */
  function Written(w: Writer): seq<Chunk> {
    if w.worker.Writing? && w.taken != [] then w.taken[..|w.taken| - 1] else w.taken
  }

  ghost predicate FileFits(w: Writer) {
    && Contiguous(w.taken, 0) && w.next == |Flat(w.taken)|
    && (forall c :: c in w.taken ==> HasChunk(w.tasks, c))
    && (w.worker.Writing? ==>
          w.worker.i < |w.tasks| && w.taken != [] && w.taken[|w.taken| - 1] == w.tasks[w.worker.i].chunk)
    && (!w.err ==> w.file == w.hashed == Flat(Written(w)))
    && (Succeeded(w) ==>
          Ending(w.worker) && !w.err && w.queue == [] && w.flush.result.digestOf == if w.hashing then w.hashed else [])
  }

  /** `err` is set only by a worker that is about to end. */
  predicate ErrFits(w: Writer) {
    && (w.err ==> Ending(w.worker) || (w.worker.Releasing? && !w.worker.ok))
    && (w.worker.Releasing? && !w.worker.ok ==> w.err)
  }

  /** Producers and `Flush` touch neither the file nor the worker's variables. */
  lemma OtherStepFrame(lim: Limits, limiter: int, w: Writer, step: Step)
    requires Enabled(w, step) && LeavesWorker(step)
    ensures var w' := Apply(lim, limiter, w, step).1;
            && w'.worker == w.worker && w'.next == w.next && w'.file == w.file && w'.hashed == w.hashed
            && w'.taken == w.taken && w'.err == w.err && w'.cut == w.cut && w'.hashing == w.hashing
  {
    match step
    case TryAdd(_, _) | UndoAdd(_) | CountScheduled(_) | Send(_) | FailEnqueue(_) | CountFailed(_) =>
    case Cancel | CallFlush | FlushSeesExit | FlushLoads | FlushRemoves =>
  }

  lemma WorkerStepKeepsErrFit(lim: Limits, limiter: int, w: Writer, step: Step)
    requires Enabled(w, step) && !LeavesWorker(step) && ErrFits(w)
    ensures ErrFits(Apply(lim, limiter, w, step).1)
  {
  }

  lemma StepKeepsErrFit(lim: Limits, limiter: int, w: Writer, step: Step)
    requires Enabled(w, step) && ErrFits(w)
    ensures ErrFits(Apply(lim, limiter, w, step).1)
  {
    if LeavesWorker(step) {
      OtherStepFrame(lim, limiter, w, step);
    } else {
      WorkerStepKeepsErrFit(lim, limiter, w, step);
    }
  }

  /** They move no chunk into or out of the worker's hands. */
  lemma OtherStepSubject(lim: Limits, limiter: int, w: Writer, step: Step)
    requires Enabled(w, step) && LeavesWorker(step)
    ensures var subject := Subject(lim, limiter, w, step);
            subject.Some? ==>
              var (i, pc) := subject.value;
              !TakenOut(pc) && !LeftBehind(pc) && !TakenOut(w.tasks[i].pc) && !LeftBehind(w.tasks[i].pc)
  {
  }

  lemma WorkerKeepsTaken(lim: Limits, limiter: int, w: Writer, step: Step)
    requires Enabled(w, step) && !LeavesWorker(step) && !step.Take?
    ensures Apply(lim, limiter, w, step).1.taken == w.taken
  {
  }

  lemma WorkerStepSubject(lim: Limits, limiter: int, w: Writer, step: Step)
    requires Enabled(w, step) && !LeavesWorker(step) && !step.Take?
    ensures var subject := Subject(lim, limiter, w, step);
            subject.Some? ==>
              var (i, pc) := subject.value;
              TakenOut(pc) == TakenOut(w.tasks[i].pc) && (LeftBehind(w.tasks[i].pc) ==> LeftBehind(pc))
  {
  }

  lemma WorkerStepFrame(lim: Limits, limiter: int, w: Writer, step: Step)
    requires Enabled(w, step) && !LeavesWorker(step) && !step.Take?
    ensures Apply(lim, limiter, w, step).1.taken == w.taken
    ensures var subject := Subject(lim, limiter, w, step);
            subject.Some? ==>
              var (i, pc) := subject.value;
              TakenOut(pc) == TakenOut(w.tasks[i].pc) && (LeftBehind(w.tasks[i].pc) ==> LeftBehind(pc))
  {
    WorkerKeepsTaken(lim, limiter, w, step);
    WorkerStepSubject(lim, limiter, w, step);
  }

  lemma SavingStepKeepsLeft(lim: Limits, limiter: int, w: Writer, step: Step, i: nat)
    requires i < |w.tasks| && Enabled(w, step) && Saves(step) && ErrFits(w)
    requires LeftFits(w.worker, w.err || w.cut, w.next, w.tasks[i])
    ensures var w' := Apply(lim, limiter, w, step).1;
            i < |w'.tasks| && LeftFits(w'.worker, w'.err || w'.cut, w'.next, w'.tasks[i])
  {
    if step.StopDrain? {
      assert w.tasks[i].pc.Buffered? ==> w.tasks[i].chunk.offset != w.next;
    }
  }

  lemma EndingStepKeepsLeft(lim: Limits, limiter: int, w: Writer, step: Step, i: nat)
    requires i < |w.tasks| && Enabled(w, step) && !LeavesWorker(step) && !Saves(step) && ErrFits(w)
    requires LeftFits(w.worker, w.err || w.cut, w.next, w.tasks[i])
    ensures var w' := Apply(lim, limiter, w, step).1;
            i < |w'.tasks| && LeftFits(w'.worker, w'.err || w'.cut, w'.next, w'.tasks[i])
  {
  }

  lemma QueueUntouched(lim: Limits, limiter: int, w: Writer, step: Step)
    requires Enabled(w, step) && !step.Receive? && !step.Send?
    ensures Apply(lim, limiter, w, step).1.queue == w.queue
    ensures var subject := Subject(lim, limiter, w, step);
            subject.Some? ==> !w.tasks[subject.value.0].pc.Queued? && !subject.value.1.Queued?
  {
    match step
    case TryAdd(_, _) | UndoAdd(_) | CountScheduled(_) | FailEnqueue(_) | CountFailed(_) =>
    case _ =>
  }

  lemma StepKeepsQueue(lim: Limits, limiter: int, w: Writer, step: Step, i: nat)
    requires i < |w.tasks| && Enabled(w, step)
    requires QueueFits(w.queue, i, w.tasks[i])
    ensures var w' := Apply(lim, limiter, w, step).1;
            i < |w'.tasks| && QueueFits(w'.queue, i, w'.tasks[i])
  {
    ApplyMovesSubject(lim, limiter, w, step);
    if step.Receive? {
      assert w.queue == [w.queue[0]] + w.queue[1..];
    } else if !step.Send? {
      QueueUntouched(lim, limiter, w, step);
    }
  }

  lemma StepKeepsTaken(lim: Limits, limiter: int, w: Writer, step: Step, i: nat)
    requires GoodTasks(w.tasks) && i < |w.tasks| && Enabled(w, step) && TakenFits(w.taken, w.tasks[i])
    ensures var w' := Apply(lim, limiter, w, step).1;
            i < |w'.tasks| && TakenFits(w'.taken, w'.tasks[i])
  {
    ApplyMovesSubject(lim, limiter, w, step);
    if LeavesWorker(step) {
      OtherStepFrame(lim, limiter, w, step);
      OtherStepSubject(lim, limiter, w, step);
    } else if !step.Take? {
      WorkerStepFrame(lim, limiter, w, step);
    } else if i != step.i {
      var k, l := if i < step.i then i else step.i, if i < step.i then step.i else i;
      assert w.tasks[k].chunk.offset != w.tasks[l].chunk.offset;
    }
  }

  lemma StepKeepsLeft(lim: Limits, limiter: int, w: Writer, step: Step, i: nat)
    requires i < |w.tasks| && Enabled(w, step) && ErrFits(w)
    requires LeftFits(w.worker, w.err || w.cut, w.next, w.tasks[i])
    ensures var w' := Apply(lim, limiter, w, step).1;
            i < |w'.tasks| && LeftFits(w'.worker, w'.err || w'.cut, w'.next, w'.tasks[i])
  {
    if LeavesWorker(step) {
      ApplyMovesSubject(lim, limiter, w, step);
      OtherStepFrame(lim, limiter, w, step);
      OtherStepSubject(lim, limiter, w, step);
    } else if Saves(step) {
      SavingStepKeepsLeft(lim, limiter, w, step, i);
    } else {
      EndingStepKeepsLeft(lim, limiter, w, step, i);
    }
  }

  lemma StepKeepsTasksFiled(lim: Limits, limiter: int, w: Writer, step: Step)
    requires GoodTasks(w.tasks) && TasksFiled(w) && ErrFits(w) && Enabled(w, step)
    ensures TasksFiled(Apply(lim, limiter, w, step).1)
  {
    var w' := Apply(lim, limiter, w, step).1;
    ApplyKeepsCount(lim, limiter, w, step);
    forall i | 0 <= i < |w'.tasks| ensures TaskFiled(w', i) {
      assert TaskFiled(w, i);
      StepKeepsTaken(lim, limiter, w, step, i);
      StepKeepsLeft(lim, limiter, w, step, i);
      StepKeepsQueue(lim, limiter, w, step, i);
    }
  }

  lemma ApplyKeepsCount(lim: Limits, limiter: int, w: Writer, step: Step)
    requires Enabled(w, step)
    ensures |Apply(lim, limiter, w, step).1.tasks| == |w.tasks|
  {
    ApplyMovesSubject(lim, limiter, w, step);
  }

  lemma MoveKeepsChunks(tasks: seq<Task>, i: nat, pc: Pc, c: Chunk)
    requires i < |tasks| && HasChunk(tasks, c)
    ensures HasChunk(tasks[i := tasks[i].(pc := pc)], c)
  {
    var k :| 0 <= k < |tasks| && tasks[k].chunk == c;
    assert tasks[i := tasks[i].(pc := pc)][k].chunk == c;
  }

  lemma TakeKeepsFileFit(lim: Limits, limiter: int, w: Writer, i: nat)
    requires FileFits(w) && Enabled(w, Take(i))
    ensures FileFits(Apply(lim, limiter, w, Take(i)).1)
  {
    var c := w.tasks[i].chunk;
    var w' := Apply(lim, limiter, w, Take(i)).1;
    FlatConcat(w.taken, [c]);
    FlatSingle(c);
    ContiguousConcat(w.taken, [c], 0);
    assert Written(w') == w.taken;
    forall d | d in w'.taken ensures HasChunk(w'.tasks, d) {
      assert w'.tasks[i].chunk == c;
      if d in w.taken {
        MoveKeepsChunks(w.tasks, i, Saving, d);
      }
    }
  }

  /** A write that succeeds appends the last chunk taken. */
  lemma WriteAppends(w: Writer, wrote: nat, seen: nat)
    requires FileFits(w) && w.worker.Writing? && !w.err
    requires wrote == seen == |w.tasks[w.worker.i].chunk.data|
    ensures var data := w.tasks[w.worker.i].chunk.data;
            w.file + data[..wrote] == w.hashed + data[..seen] == Flat(w.taken)
  {
    var c := w.tasks[w.worker.i].chunk;
    var before := Written(w);
    assert w.taken == before + [c];
    FlatConcat(before, [c]);
    FlatSingle(c);
    assert c.data[..wrote] == c.data;
  }

  lemma WriteKeepsFileFit(lim: Limits, limiter: int, w: Writer, step: Step)
    requires step.Write? && FileFits(w) && Enabled(w, step)
    ensures FileFits(Apply(lim, limiter, w, step).1)
  {
    var w' := Apply(lim, limiter, w, step).1;
    assert w'.tasks == w.tasks && w'.taken == w.taken && Written(w') == w.taken;
    if !w'.err {
      WriteAppends(w, step.wrote, step.seen);
    }
  }

  lemma MoveKeepsAllChunks(taken: seq<Chunk>, tasks: seq<Task>, i: nat, pc: Pc)
    requires i < |tasks| && forall c :: c in taken ==> HasChunk(tasks, c)
    ensures forall c :: c in taken ==> HasChunk(tasks[i := tasks[i].(pc := pc)], c)
  {
    forall c | c in taken ensures HasChunk(tasks[i := tasks[i].(pc := pc)], c) {
      MoveKeepsChunks(tasks, i, pc, c);
    }
  }

  predicate Succeeded(w: Writer) {
    HasResult(w.flush) && w.flush.result.Success?
  }

  /** The worker's other steps leave the file and the loop variables alone, and a successful flush is final. */
  lemma WorkerQuietFrame(lim: Limits, limiter: int, w: Writer, step: Step)
    requires Enabled(w, step) && !LeavesWorker(step) && !step.Take? && !step.Write?
    ensures var w' := Apply(lim, limiter, w, step).1;
            && w'.next == w.next && w'.file == w.file && w'.hashed == w.hashed && w'.hashing == w.hashing
            && w'.taken == w.taken && (w.err ==> w'.err)
    ensures !w.worker.Writing? && !Apply(lim, limiter, w, step).1.worker.Writing?
  {
    WorkerKeepsTaken(lim, limiter, w, step);
    if Saves(step) {
      SavingQuietFrame(lim, limiter, w, step);
    }
  }

  lemma SavingQuietFrame(lim: Limits, limiter: int, w: Writer, step: Step)
    requires Enabled(w, step) && Saves(step) && !step.Take? && !step.Write?
    ensures var w' := Apply(lim, limiter, w, step).1;
            && w'.next == w.next && w'.file == w.file && w'.hashed == w.hashed && w'.hashing == w.hashing
            && (w.err ==> w'.err)
    ensures !w.worker.Writing? && !Apply(lim, limiter, w, step).1.worker.Writing?
  {
  }

  lemma StepKeepsResult(lim: Limits, limiter: int, w: Writer, step: Step)
    requires Enabled(w, step) && !step.HandOverDigest?
    ensures var w' := Apply(lim, limiter, w, step).1;
            Succeeded(w') <==> Succeeded(w)
    ensures var w' := Apply(lim, limiter, w, step).1;
            Succeeded(w) ==> w'.flush.result == w.flush.result
  {
  }

  lemma EndingStaysClean(lim: Limits, limiter: int, w: Writer, step: Step)
    requires Enabled(w, step) && Succeeded(w) && Ending(w.worker) && !w.err && w.queue == []
    ensures var w' := Apply(lim, limiter, w, step).1;
            Ending(w'.worker) && !w'.err && w'.queue == []
  {
  }

  lemma QuietStepKeepsSuccess(lim: Limits, limiter: int, w: Writer, step: Step)
    requires Enabled(w, step) && !step.Take? && !step.Write? && ErrFits(w)
    requires Succeeded(w) ==> Ending(w.worker) && !w.err && w.queue == []
    ensures var w' := Apply(lim, limiter, w, step).1;
            Succeeded(w') ==>
              && Ending(w'.worker) && !w'.err && w'.queue == []
              && (Succeeded(w) ==> w'.flush.result == w.flush.result)
              && (!Succeeded(w) ==> w'.flush.result.digestOf == if w.hashing then w.hashed else [])
  {
    if !step.HandOverDigest? {
      StepKeepsResult(lim, limiter, w, step);
      if Succeeded(w) {
        EndingStaysClean(lim, limiter, w, step);
      }
    }
  }

  lemma QuietStepKeepsFileFit(lim: Limits, limiter: int, w: Writer, step: Step)
    requires Enabled(w, step) && !step.Take? && !step.Write? && ErrFits(w) && FileFits(w)
    ensures FileFits(Apply(lim, limiter, w, step).1)
  {
    if LeavesWorker(step) {
      OtherStepFrame(lim, limiter, w, step);
      OtherStepSubject(lim, limiter, w, step);
    } else {
      WorkerQuietFrame(lim, limiter, w, step);
    }
    QuietStepKeepsSuccess(lim, limiter, w, step);
    ApplyMovesSubject(lim, limiter, w, step);
    var subject := Subject(lim, limiter, w, step);
    if subject.Some? {
      MoveKeepsAllChunks(w.taken, w.tasks, subject.value.0, subject.value.1);
    }
  }

  // ---------- all of it, in every run ----------

  ghost predicate SomeLeftBehind(w: Writer) {
    exists i :: 0 <= i < |w.tasks| && LeftBehind(w.tasks[i].pc)
  }

  /** A successful flush was over a gap exactly when chunks were left behind. */
  ghost predicate GapFits(w: Writer) {
    Succeeded(w) ==> (w.flush.result.gap <==> SomeLeftBehind(w))
  }

  ghost predicate Inv(w: Writer) {
    && GoodTasks(w.tasks) && Counted(w) && TasksFit(w) && FlushFits(w)
    && ErrFits(w) && TasksFiled(w) && FileFits(w) && GapFits(w)
  }

  lemma StepKeepsGap(lim: Limits, limiter: int, w: Writer, step: Step)
    requires Enabled(w, step) && !step.Take? && SomeLeftBehind(w)
    ensures SomeLeftBehind(Apply(lim, limiter, w, step).1)
  {
    var w' := Apply(lim, limiter, w, step).1;
    var i :| 0 <= i < |w.tasks| && LeftBehind(w.tasks[i].pc);
    ApplyMovesSubject(lim, limiter, w, step);
    if LeavesWorker(step) {
      OtherStepFrame(lim, limiter, w, step);
      OtherStepSubject(lim, limiter, w, step);
    } else {
      WorkerStepFrame(lim, limiter, w, step);
    }
    assert LeftBehind(w'.tasks[i].pc);
  }

  /** Once the worker is about to end, nothing more is left behind than already was. */
  lemma NothingNewIsLeftBehind(lim: Limits, limiter: int, w: Writer, step: Step)
    requires Enabled(w, step) && Ending(w.worker) && !SomeLeftBehind(w)
    ensures !SomeLeftBehind(Apply(lim, limiter, w, step).1)
  {
    var w' := Apply(lim, limiter, w, step).1;
    ApplyMovesSubject(lim, limiter, w, step);
    forall i | 0 <= i < |w'.tasks| ensures !LeftBehind(w'.tasks[i].pc) {
      assert !LeftBehind(w.tasks[i].pc);
    }
  }

  lemma HandOverSeesTheGap(lim: Limits, limiter: int, w: Writer)
    requires Enabled(w, HandOverDigest) && TasksFiled(w)
    ensures GapFits(Apply(lim, limiter, w, HandOverDigest).1)
  {
    var w' := Apply(lim, limiter, w, HandOverDigest).1;
    assert w'.tasks == w.tasks;
    if i :| 0 <= i < |w.tasks| && LeftBehind(w.tasks[i].pc) {
      assert TaskFiled(w, i);
      assert w.tasks[i].pc.Buffered?;
    }
    if w.SomeBuffered() {
      var i :| 0 <= i < |w.tasks| && w.tasks[i].pc.Buffered?;
      assert LeftBehind(w.tasks[i].pc);
    }
  }

  lemma StepKeepsGapFit(lim: Limits, limiter: int, w: Writer, step: Step)
    requires Enabled(w, step) && TasksFiled(w) && FileFits(w) && GapFits(w)
    ensures GapFits(Apply(lim, limiter, w, step).1)
  {
    if step.HandOverDigest? {
      HandOverSeesTheGap(lim, limiter, w);
    } else {
      StepKeepsResult(lim, limiter, w, step);
      if Succeeded(w) {
        if SomeLeftBehind(w) {
          StepKeepsGap(lim, limiter, w, step);
        } else {
          NothingNewIsLeftBehind(lim, limiter, w, step);
        }
      }
    }
  }

  lemma StepKeepsFlushFit(lim: Limits, limiter: int, w: Writer, step: Step)
    requires GoodTasks(w.tasks) && TasksFit(w) && FlushFits(w) && Enabled(w, step)
    ensures FlushFits(Apply(lim, limiter, w, step).1)
  {
    if LeavesWorker(step) {
      OtherStepKeepsFlushFit(lim, limiter, w, step);
    } else {
      WorkerStepKeepsFlushFit(lim, limiter, w, step);
    }
  }

  lemma StepKeepsFileFit(lim: Limits, limiter: int, w: Writer, step: Step)
    requires ErrFits(w) && FileFits(w) && Enabled(w, step)
    ensures FileFits(Apply(lim, limiter, w, step).1)
  {
    if step.Take? {
      TakeKeepsFileFit(lim, limiter, w, step.i);
    } else if step.Write? {
      WriteKeepsFileFit(lim, limiter, w, step);
    } else {
      QuietStepKeepsFileFit(lim, limiter, w, step);
    }
  }

  lemma StepKeepsInv(lim: Limits, limiter: int, w: Writer, step: Step)
    requires Inv(w) && Enabled(w, step)
    ensures Inv(Apply(lim, limiter, w, step).1)
  {
    StepKeepsTasks(lim, limiter, w, step);
    StepConserves(lim, limiter, w, step);
    StepKeepsTasksFit(lim, limiter, w, step);
    StepKeepsFlushFit(lim, limiter, w, step);
    StepKeepsErrFit(lim, limiter, w, step);
    StepKeepsTasksFiled(lim, limiter, w, step);
    StepKeepsFileFit(lim, limiter, w, step);
    StepKeepsGapFit(lim, limiter, w, step);
  }

  ghost predicate WorldInv(world: World) {
    && (forall j :: 0 <= j < |world.writers| ==> Inv(world.writers[j]))
    && world.limiter == SumOf(Own, world.writers) + SumOf(ProbeWeight, world.probes)
  }

  lemma MoveKeepsWorldInv(lim: Limits, world: World, m: Move)
    requires WorldInv(world) && EnabledIn(world, m)
    ensures WorldInv(ApplyIn(lim, world, m))
  {
    match m
    case Move(j, step) =>
      var w := world.writers[j];
      StepKeepsInv(lim, world.limiter, w, step);
      StepConserves(lim, world.limiter, w, step);
      SumOfUpdate(Own, world.writers, j, Apply(lim, world.limiter, w, step).1);
    case ProbeAdd(k, count) => SumOfUpdate(ProbeWeight, world.probes, k, Charged(count));
    case ProbeRemove(k) => SumOfUpdate(ProbeWeight, world.probes, k, Quiet);
  }

  lemma {:induction false} RunKeepsWorldInv(lim: Limits, world: World, moves: seq<Move>)
    requires WorldInv(world) && Legal(lim, world, moves)
    ensures WorldInv(Exec(lim, world, moves))
    decreases |moves|
  {
    if moves == [] {
    } else {
      MoveKeepsWorldInv(lim, world, moves[0]);
      RunKeepsWorldInv(lim, ApplyIn(lim, world, moves[0]), moves[1..]);
    }
  }

  lemma InitWriterInv(w: Writer)
    requires InitWriter(w)
    ensures Inv(w) && Own(w) == 0
  {
    SumOfNonNegative(LimiterWeight, w.tasks);
    SumOfNonNegative(ReservedWeight, w.tasks);
  }

  lemma InitInv(world: World)
    requires Init(world)
    ensures WorldInv(world)
  {
    forall j | 0 <= j < |world.writers| ensures Inv(world.writers[j]) && Own(world.writers[j]) == 0 {
      InitWriterInv(world.writers[j]);
    }
    SumOfNonNegative(Own, world.writers);
    SumOfNonNegative(ProbeWeight, world.probes);
  }
}
