/**
 That the protocol of WriterProtocol gets a file done: a run in which everything arrives, is written and is
 flushed.
 */
module WriterCompletion {
  import opened ChunkReassembly
  import opened WriterProtocol
  import opened WriterFile
  import WriterBudget

  /** Between two chunks: the first `n` are saved, the others not scheduled. */
  ghost predicate Between(w: Writer, n: nat) {
    && n <= |w.tasks| && w.queue == [] && w.worker.Waiting? && w.flush.NotCalled?
    && w.reserved == 0 && !w.cancelled && !w.err
    && (forall i :: 0 <= i < |w.tasks| ==> w.tasks[i].pc == if i < n then Saved else Unscheduled)
  }

  /** The writer after one more chunk went all the way. */
  function Advanced(w: Writer, n: nat): Writer
    requires n < |w.tasks|
  {
    var c := w.tasks[n].chunk;
    w.(tasks := w.tasks[n := w.tasks[n].(pc := Saved)], next := w.next + |c.data|, file := w.file + c.data,
       hashed := w.hashed + c.data, taken := w.taken + [c], cut := false)
  }

  /** The writer while chunk `n` is in the given state and everything else stands as it will after it. */
  function Underway(w: Writer, n: nat, pc: Pc, worker: Worker, reserved: int): Writer
    requires n < |w.tasks|
  {
    Advanced(w, n).(tasks := w.tasks[n := Task(w.tasks[n].chunk, pc)], worker := worker, reserved := reserved,
                    cut := w.cut)
  }

  /** A written chunk is released. */
  lemma WrittenChunkIsReleased(lim: Limits, w: Writer, n: nat, rest: seq<Move>) returns (moves: seq<Move>)
    requires n < |w.tasks| && Between(w, n) && w.tasks[n].chunk.WellFormed()
    requires Legal(lim, World(0, [Advanced(w, n)], []), rest)
    ensures var c := w.tasks[n].chunk;
            var written := Underway(w, n, Saving, Releasing(n, true), c.length);
            && Legal(lim, World(c.length, [written], []), moves)
            && Exec(lim, World(c.length, [written], []), moves) == Exec(lim, World(0, [Advanced(w, n)], []), rest)
  {
    var c := w.tasks[n].chunk;
    var w2 := Underway(w, n, Saving, Releasing(n, true), c.length);
    var w3 := Underway(w, n, SaveHalf, Releasing(n, true), c.length);
    var w4 := Underway(w, n, Saved, Draining, 0);
    assert w2.tasks[n := Task(c, SaveHalf)] == w3.tasks && w3.tasks[n := Task(c, Saved)] == w4.tasks;
    moves := WriterBudget.StepFirst(lim, 0, w4, StopDrain, 0, Advanced(w, n), rest);
    moves := WriterBudget.StepFirst(lim, 0, w3, CountReleased, 0, w4, moves);
    moves := WriterBudget.StepFirst(lim, c.length, w2, ReleaseToLimiter, 0, w3, moves);
  }

  /** The writer with chunk `n` taken and not yet written. */
  function Taken(w: Writer, n: nat): Writer
    requires n < |w.tasks|
  {
    Underway(w, n, Saving, Writing(n), w.tasks[n].chunk.length).(file := w.file, hashed := w.hashed)
  }

  lemma TakenChunkIsWritten(lim: Limits, w: Writer, n: nat, rest: seq<Move>) returns (moves: seq<Move>)
    requires n < |w.tasks| && Between(w, n) && w.tasks[n].chunk.WellFormed()
    requires Legal(lim, World(0, [Advanced(w, n)], []), rest)
    ensures var length := w.tasks[n].chunk.length;
            && Legal(lim, World(length, [Taken(w, n)], []), moves)
            && Exec(lim, World(length, [Taken(w, n)], []), moves) == Exec(lim, World(0, [Advanced(w, n)], []), rest)
  {
    var c := w.tasks[n].chunk;
    var k := |c.data|;
    assert c.data[..k] == c.data;
    moves := WrittenChunkIsReleased(lim, w, n, rest);
    moves := WriterBudget.StepFirst(lim, c.length, Taken(w, n), Write(true, k, k), c.length,
                                    Underway(w, n, Saving, Releasing(n, true), c.length), moves);
  }

  /** The chunk that was received is taken out of the buffer and written. */
  lemma BufferedChunkIsSaved(lim: Limits, w: Writer, n: nat, rest: seq<Move>) returns (moves: seq<Move>)
    requires n < |w.tasks| && Between(w, n) && w.tasks[n].chunk.WellFormed() && w.tasks[n].chunk.offset == w.next
    requires Legal(lim, World(0, [Advanced(w, n)], []), rest)
    ensures var c := w.tasks[n].chunk;
            var received := w.Move(n, Buffered).(worker := Draining, reserved := c.length);
            && Legal(lim, World(c.length, [received], []), moves)
            && Exec(lim, World(c.length, [received], []), moves) == Exec(lim, World(0, [Advanced(w, n)], []), rest)
  {
    var c := w.tasks[n].chunk;
    var received := w.Move(n, Buffered).(worker := Draining, reserved := c.length);
    assert received.tasks[n := Task(c, Saving)] == Taken(w, n).tasks;
    moves := TakenChunkIsWritten(lim, w, n, rest);
    moves := WriterBudget.StepFirst(lim, c.length, received, Take(n), c.length, Taken(w, n), moves);
  }

  /** The chunk is scheduled, enqueued and received. */
  lemma ChunkGoesThrough(lim: Limits, w: Writer, n: nat, rest: seq<Move>) returns (moves: seq<Move>)
    requires n < |w.tasks| && Between(w, n) && w.tasks[n].chunk.WellFormed() && w.tasks[n].chunk.offset == w.next
    requires w.tasks[n].chunk.length <= lim.limit
    requires Legal(lim, World(0, [Advanced(w, n)], []), rest)
    ensures Legal(lim, World(0, [w], []), moves)
    ensures Exec(lim, World(0, [w], []), moves) == Exec(lim, World(0, [Advanced(w, n)], []), rest)
  {
    var c := w.tasks[n].chunk;
    var w1 := w.Move(n, Admitted);
    var w2 := w.Move(n, Scheduled).(reserved := c.length);
    var w3 := w.Move(n, Queued).(reserved := c.length, queue := [n]);
    var w4 := w.Move(n, Buffered).(worker := Draining, reserved := c.length);
    assert w1.tasks[n := Task(c, Scheduled)] == w2.tasks && w2.tasks[n := Task(c, Queued)] == w3.tasks
           && w3.tasks[n := Task(c, Buffered)] == w4.tasks;
    assert [n][1..] == [] && [] + [n] == [n];
    moves := BufferedChunkIsSaved(lim, w, n, rest);
    moves := WriterBudget.StepFirst(lim, c.length, w3, Receive, c.length, w4, moves);
    moves := WriterBudget.StepFirst(lim, c.length, w2, Send(n), c.length, w3, moves);
    moves := WriterBudget.StepFirst(lim, c.length, w1, CountScheduled(n), c.length, w2, moves);
    moves := WriterBudget.StepFirst(lim, 0, w, TryAdd(n, true), c.length, w1, moves);
  }

  /** `Flush` got the digest and removes nothing; the worker ends. */
  lemma FlushReturns(lim: Limits, w: Writer, digest: FlushResult) returns (moves: seq<Move>)
    requires w.reserved == 0 && !w.SomeBuffered() && w.worker.Exiting? && w.flush == Got(digest)
    ensures var end := w.(flush := Returned(digest, 0), worker := Closed);
            Legal(lim, World(0, [w], []), moves) && Exec(lim, World(0, [w], []), moves) == World(0, [end], [])
  {
    var w3 := w.(flush := Loaded(digest, 0));
    var w4 := w.(flush := Returned(digest, 0));
    var end := w4.(worker := Closed);
    assert Legal(lim, World(0, [end], []), []);
    moves := WriterBudget.StepFirst(lim, 0, w4, Close, 0, end, []);
    moves := WriterBudget.StepFirst(lim, 0, w3, FlushRemoves, 0, w4, moves);
    moves := WriterBudget.StepFirst(lim, 0, w, FlushLoads, 0, w3, moves);
  }

  /** `Flush` takes the digest and the worker ends. */
  lemma AllSavedIsFlushed(lim: Limits, w: Writer) returns (moves: seq<Move>)
    requires Between(w, |w.tasks|)
    ensures Legal(lim, World(0, [w], []), moves) && |Exec(lim, World(0, [w], []), moves).writers| == 1
    ensures var w' := Exec(lim, World(0, [w], []), moves).writers[0];
            WriterBudget.AtRest(w') && Succeeded(w') && w'.tasks == w.tasks && !w'.cancelled && !w'.flush.result.gap
  {
    var digest := Success(if w.hashing then w.hashed else [], false);
    var w1 := w.(flush := Blocked);
    var w2 := w.(flush := Got(digest), worker := Exiting);
    moves := FlushReturns(lim, w2, digest);
    moves := WriterBudget.StepFirst(lim, 0, w1, HandOverDigest, 0, w2, moves);
    moves := WriterBudget.StepFirst(lim, 0, w, CallFlush, 0, w1, moves);
  }

  function ChunksFrom(w: Writer, n: nat): seq<Chunk>
    requires n <= |w.tasks|
    decreases |w.tasks| - n
  {
    if n == |w.tasks| then [] else [w.tasks[n].chunk] + ChunksFrom(w, n + 1)
  }

  lemma {:induction false} AdvancedKeepsChunks(w: Writer, n: nat, m: nat)
    requires n < m <= |w.tasks|
    ensures ChunksFrom(Advanced(w, n), m) == ChunksFrom(w, m)
    decreases |w.tasks| - m
  {
    if m == |w.tasks| {
    } else {
      AdvancedKeepsChunks(w, n, m + 1);
    }
  }

  lemma {:induction false} RestCanBeCompleted(lim: Limits, w: Writer, n: nat) returns (moves: seq<Move>)
    requires Between(w, n) && Contiguous(ChunksFrom(w, n), w.next)
    requires forall i :: 0 <= i < |w.tasks| ==> w.tasks[i].chunk.WellFormed() && w.tasks[i].chunk.length <= lim.limit
    ensures Legal(lim, World(0, [w], []), moves) && |Exec(lim, World(0, [w], []), moves).writers| == 1
    ensures var w' := Exec(lim, World(0, [w], []), moves).writers[0];
            && WriterBudget.AtRest(w') && Succeeded(w') && !w'.cancelled && !w'.flush.result.gap
            && SameChunks(w, w') && AllAccepted(w')
    decreases |w.tasks| - n
  {
    if n == |w.tasks| {
      moves := AllSavedIsFlushed(lim, w);
    } else {
      var next := Advanced(w, n);
      AdvancedKeepsChunks(w, n, n + 1);
      assert ChunksFrom(w, n)[1..] == ChunksFrom(w, n + 1);
      moves := RestCanBeCompleted(lim, next, n + 1);
      moves := ChunkGoesThrough(lim, w, n, moves);
    }
  }

  /** Every file whose chunks fit the limit one by one can be completed: there is a run in which `Flush` returns
      success, the file is the tiles in order, and the budget is even. */
  lemma EveryFileCanBeCompleted(lim: Limits, w: Writer, tiles: seq<Chunk>) returns (moves: seq<Move>)
    requires InitWriter(w) && TilesOf(tiles, w) && ChunksFrom(w, 0) == tiles
    requires forall c :: c in tiles ==> c.length <= lim.limit
    ensures Legal(lim, World(0, [w], []), moves) && |Exec(lim, World(0, [w], []), moves).writers| == 1
    ensures var w' := Exec(lim, World(0, [w], []), moves).writers[0];
            && WriterBudget.AtRest(w') && w'.flush.result.Success? && w'.file == Flat(tiles) && Own(w') == 0
            && w'.flush.result.digestOf == if w'.hashing then Flat(tiles) else []
  {
    forall i | 0 <= i < |w.tasks| ensures w.tasks[i].chunk.WellFormed() && w.tasks[i].chunk.length <= lim.limit {
      assert HasChunk(w.tasks, w.tasks[i].chunk);
    }
    moves := RestCanBeCompleted(lim, w, 0);
    var w' := Exec(lim, World(0, [w], []), moves).writers[0];
    forall c ensures c in tiles <==> HasChunk(w'.tasks, c) {
      assert HasChunk(w.tasks, c) <==> HasChunk(w'.tasks, c) by {
        assert forall i :: 0 <= i < |w.tasks| ==> w.tasks[i].chunk == w'.tasks[i].chunk;
      }
    }
    assert Init(World(0, [w], []));
    SuccessfulFlushIsCompleteIff(lim, World(0, [w], []), moves, 0, tiles);
  }

  /** A worker that sees the cancellation ends, and `Flush` returns a failure. */
  lemma CancellationEndsTheFile(lim: Limits, w: Writer) returns (moves: seq<Move>)
    requires InitWriter(w)
    ensures Legal(lim, World(0, [w], []), moves)
    ensures Exec(lim, World(0, [w], []), moves) ==
            World(0, [w.(cancelled := true, err := true, worker := Closed, flush := Returned(Failure, 0))], [])
  {
    var w1 := w.(cancelled := true);
    var w2 := w1.(flush := Blocked);
    var w3 := w2.(err := true, worker := Exiting);
    moves := CancelledFlushReturns(lim, w3);
    moves := WriterBudget.StepFirst(lim, 0, w2, SeeCancel, 0, w3, moves);
    moves := WriterBudget.StepFirst(lim, 0, w1, CallFlush, 0, w2, moves);
    moves := WriterBudget.StepFirst(lim, 0, w, Cancel, 0, w1, moves);
  }

  lemma CancelledFlushReturns(lim: Limits, w: Writer) returns (moves: seq<Move>)
    requires w.reserved == 0 && !w.SomeBuffered() && w.worker.Exiting? && w.flush.Blocked?
    ensures var end := w.(flush := Returned(Failure, 0), worker := Closed);
            Legal(lim, World(0, [w], []), moves) && Exec(lim, World(0, [w], []), moves) == World(0, [end], [])
  {
    var w1 := w.(worker := Closed);
    var w2 := w1.(flush := Got(Failure));
    var w3 := w1.(flush := Loaded(Failure, 0));
    var end := w1.(flush := Returned(Failure, 0));
    assert Legal(lim, World(0, [end], []), []);
    moves := WriterBudget.StepFirst(lim, 0, w3, FlushRemoves, 0, end, []);
    moves := WriterBudget.StepFirst(lim, 0, w2, FlushLoads, 0, w3, moves);
    moves := WriterBudget.StepFirst(lim, 0, w1, FlushSeesExit, 0, w2, moves);
    moves := WriterBudget.StepFirst(lim, 0, w, Close, 0, w1, moves);
  }

  /** An add that went over the limit is undone, and nothing is left of it. */
  lemma RefusedAddLeavesNothing(lim: Limits, limiter: int, w: Writer, i: nat, relaxed: bool)
    requires Enabled(w, TryAdd(i, relaxed))
    requires limiter + w.tasks[i].chunk.length > if relaxed then lim.limit else lim.strictLimit
    ensures var (limiter1, w1) := Apply(lim, limiter, w, TryAdd(i, relaxed));
            Enabled(w1, UndoAdd(i)) && Apply(lim, limiter1, w1, UndoAdd(i)) == (limiter, w)
  {
    var w1 := Apply(lim, limiter, w, TryAdd(i, relaxed)).1;
    assert w1.tasks[i := w1.tasks[i].(pc := Unscheduled)] == w.tasks;
  }
}
