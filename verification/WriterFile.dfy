/**
 What a successful `Flush` in WriterProtocol says about the file: exactly when it is complete, and a run in
 which it is not.
 */
module WriterFile {
  import opened Basics
  import opened Sums
  import opened ChunkReassembly
  import opened WriterProtocol
  import WriterBudget

  /** EnqueueChunk accepted the chunk. */
  predicate Accepted(pc: Pc) {
    pc.Queued? || TakenOut(pc) || LeftBehind(pc)
  }

  predicate AllAccepted(w: Writer) {
    forall i :: 0 <= i < |w.tasks| ==> Accepted(w.tasks[i].pc)
  }

  ghost predicate TilesOf(tiles: seq<Chunk>, w: Writer) {
    Tiles(tiles) && forall c :: c in tiles <==> HasChunk(w.tasks, c)
  }

  /** Tiles that are contiguous from the start are the first ones. */
  lemma {:induction false} ContiguousTilesAreAPrefix(some: seq<Chunk>, tiles: seq<Chunk>, start: int)
    requires AllWellFormed(tiles) && Contiguous(tiles, start) && Contiguous(some, start)
    requires forall c :: c in some ==> c in tiles
    ensures some <= tiles
    ensures |Flat(some)| == |Flat(tiles)| <==> some == tiles
    decreases |some|
  {
    if some == [] {
      if tiles != [] {
        assert tiles[0] in tiles && tiles[0].WellFormed();
      }
    } else {
      assert some[0] in some;
      assert some[0] in tiles;
      forall c | c in tiles[1..] ensures c.offset > start {
        ContiguousBounds(tiles[1..], tiles[0].End(), c);
        assert tiles[0] in tiles;
      }
      assert some[0] == tiles[0];
      forall c | c in some[1..] ensures c in tiles[1..] {
        ContiguousBounds(some[1..], some[0].End(), c);
        assert tiles[0] in tiles && c in some;
      }
      ContiguousTilesAreAPrefix(some[1..], tiles[1..], tiles[0].End());
      assert some == [some[0]] + some[1..] && tiles == [tiles[0]] + tiles[1..];
    }
  }

  /** The tiles that were taken make up the file exactly when they are all of them. */
  lemma FileIsCompleteIffAllTaken(w: Writer, tiles: seq<Chunk>)
    requires Inv(w) && Succeeded(w) && TilesOf(tiles, w)
    ensures w.file == Flat(w.taken)
    ensures w.file == Flat(tiles) <==> w.taken == tiles
  {
    ContiguousTilesAreAPrefix(w.taken, tiles, 0);
  }

  lemma AllTakenIffAcceptedWithoutGap(w: Writer, tiles: seq<Chunk>)
    requires Inv(w) && Succeeded(w) && TilesOf(tiles, w)
    ensures w.taken == tiles <==> AllAccepted(w) && !w.flush.result.gap
  {
    if AllAccepted(w) && !w.flush.result.gap {
      forall c | c in tiles ensures c in w.taken {
        var i :| 0 <= i < |w.tasks| && w.tasks[i].chunk == c;
        assert TaskFiled(w, i);
        assert Accepted(w.tasks[i].pc) && !LeftBehind(w.tasks[i].pc);
      }
      ReassemblyComplete(w.taken, {}, tiles, 0);
    }
    if w.taken == tiles {
      forall i | 0 <= i < |w.tasks| ensures TakenOut(w.tasks[i].pc) {
        assert HasChunk(w.tasks, w.tasks[i].chunk);
        assert TaskFiled(w, i);
      }
    }
  }

  /** If the last saving loop was not cut short, accepting everything leaves no gap. */
  lemma AcceptedUncutHasNoGap(w: Writer, tiles: seq<Chunk>)
    requires Inv(w) && Succeeded(w) && TilesOf(tiles, w) && AllAccepted(w) && !w.cut
    ensures !w.flush.result.gap
  {
    var left := set i | 0 <= i < |w.tasks| && LeftBehind(w.tasks[i].pc) :: w.tasks[i].chunk;
    forall c | c in left ensures c in tiles && c !in w.taken && c.offset != |Flat(w.taken)| {
      var i :| 0 <= i < |w.tasks| && LeftBehind(w.tasks[i].pc) && w.tasks[i].chunk == c;
      assert HasChunk(w.tasks, c);
      assert TaskFiled(w, i);
    }
    forall c | c in tiles ensures c in w.taken || c in left {
      var i :| 0 <= i < |w.tasks| && w.tasks[i].chunk == c;
      assert TaskFiled(w, i);
    }
    forall i | 0 <= i < |w.tasks| && LeftBehind(w.tasks[i].pc) ensures w.tasks[i].chunk in left {
    }
    ReassemblyComplete(w.taken, left, tiles, 0);
  }

  /** Whatever the interleaving and the order of arrival, whether the run was cancelled or not: after a successful
      `Flush` the digest was taken over exactly the file; the file is the tiles in order if and only if
      EnqueueChunk accepted every chunk and none was left beyond a gap; and then the budget got everything back
      once the worker ended. */
  lemma SuccessfulFlushIsCompleteIff(lim: Limits, world0: World, moves: seq<Move>, j: nat, tiles: seq<Chunk>)
    requires Init(world0) && Legal(lim, world0, moves) && j < |Exec(lim, world0, moves).writers|
    requires Succeeded(Exec(lim, world0, moves).writers[j]) && TilesOf(tiles, Exec(lim, world0, moves).writers[j])
    ensures var w := Exec(lim, world0, moves).writers[j];
            && w.flush.result.digestOf == (if w.hashing then w.file else [])
            && (w.file == Flat(tiles) <==> AllAccepted(w) && !w.flush.result.gap)
            && (WriterBudget.AtRest(w) && w.file == Flat(tiles) ==> Own(w) == 0)
  {
    InitInv(world0);
    RunKeepsWorldInv(lim, world0, moves);
    var w := Exec(lim, world0, moves).writers[j];
    FileIsCompleteIffAllTaken(w, tiles);
    AllTakenIffAcceptedWithoutGap(w, tiles);
    if WriterBudget.AtRest(w) {
      WriterBudget.RestingWriterOwesItsReservation(w);
    }
  }

  /** In particular: every chunk accepted and the last saving loop not cut short is enough. */
  lemma SuccessfulFlushMeansCompleteFile(lim: Limits, world0: World, moves: seq<Move>, j: nat, tiles: seq<Chunk>)
    requires Init(world0) && Legal(lim, world0, moves) && j < |Exec(lim, world0, moves).writers|
    requires var w := Exec(lim, world0, moves).writers[j];
             Succeeded(w) && !w.cut && AllAccepted(w) && TilesOf(tiles, w)
    ensures var w := Exec(lim, world0, moves).writers[j];
            && w.file == Flat(tiles)
            && w.flush.result.digestOf == (if w.hashing then w.file else [])
            && (WriterBudget.AtRest(w) ==> Own(w) == 0)
  {
    SuccessfulFlushIsCompleteIff(lim, world0, moves, j, tiles);
    InitInv(world0);
    RunKeepsWorldInv(lim, world0, moves);
    AcceptedUncutHasNoGap(Exec(lim, world0, moves).writers[j], tiles);
  }

  /** Without cancellation the caller can tell: the file is complete if and only if every call of EnqueueChunk
      returned without an error. */
  lemma UncancelledFlushIsCompleteIffAccepted(lim: Limits, world0: World, moves: seq<Move>, j: nat, tiles: seq<Chunk>)
    requires Init(world0) && Legal(lim, world0, moves) && j < |Exec(lim, world0, moves).writers|
    requires Succeeded(Exec(lim, world0, moves).writers[j]) && TilesOf(tiles, Exec(lim, world0, moves).writers[j])
    requires !Exec(lim, world0, moves).writers[j].cancelled
    ensures var w := Exec(lim, world0, moves).writers[j];
            && (w.file == Flat(tiles) <==> AllAccepted(w))
            && (AllAccepted(w) ==> !w.flush.result.gap)
  {
    SuccessfulFlushIsCompleteIff(lim, world0, moves, j, tiles);
    RunKeepsCount(lim, world0, moves);
    OnlyCancellationCutsShort(lim, world0, moves, j);
    InitInv(world0);
    RunKeepsWorldInv(lim, world0, moves);
    var w := Exec(lim, world0, moves).writers[j];
    if AllAccepted(w) {
      AcceptedUncutHasNoGap(w, tiles);
    }
  }

  // ---------- what the caller sees of a gap ----------

  /** A chunk was accepted although one that comes before it in the file was not. */
  predicate AcceptedBeyondARefused(w: Writer) {
    exists i, j :: && 0 <= i < |w.tasks| && 0 <= j < |w.tasks|
                   && !Accepted(w.tasks[i].pc) && Accepted(w.tasks[j].pc)
                   && w.tasks[i].chunk.offset < w.tasks[j].chunk.offset
  }

  lemma {:induction false} ContiguousRest(some: seq<Chunk>, tiles: seq<Chunk>, start: int)
    requires some <= tiles && Contiguous(tiles, start)
    ensures Contiguous(tiles[|some|..], start + |Flat(some)|)
    decreases |some|
  {
    if some == [] {
      assert tiles[0..] == tiles;
    } else {
      assert some[0] == tiles[0];
      assert tiles[1..][|some| - 1..] == tiles[|some|..];
      ContiguousRest(some[1..], tiles[1..], tiles[0].End());
    }
  }

  /** Everything queued was received, and the worker is not busy with a chunk to save. */
  predicate AllReceived(w: Writer) {
    w.queue == [] && !w.err && (w.worker.Waiting? || Ending(w.worker))
  }

  /** What was taken ends at `next`, and what was not begins there. */
  lemma TakenEndsAtNext(w: Writer, tiles: seq<Chunk>)
    requires Inv(w) && TilesOf(tiles, w)
    ensures forall c :: c in tiles ==> (c in w.taken <==> c.offset < w.next)
    ensures w.taken != tiles ==> exists c :: c in tiles && c.offset == w.next
  {
    ContiguousTilesAreAPrefix(w.taken, tiles, 0);
    ContiguousRest(w.taken, tiles, 0);
    var rest := tiles[|w.taken|..];
    assert tiles == w.taken + rest;
    forall c | c in tiles ensures c in w.taken <==> c.offset < w.next {
      if c in w.taken {
        ContiguousBounds(w.taken, 0, c);
      } else {
        ContiguousBounds(rest, w.next, c);
      }
    }
    if w.taken != tiles {
      assert rest[0] in tiles && rest[0].offset == w.next;
    }
  }

  /** Then what was accepted was taken or left behind. */
  lemma AcceptedIsTakenOrLeft(w: Writer, i: nat)
    requires Inv(w) && AllReceived(w) && i < |w.tasks|
    ensures Accepted(w.tasks[i].pc) <==> w.tasks[i].chunk in w.taken || LeftBehind(w.tasks[i].pc)
    ensures LeftBehind(w.tasks[i].pc) ==> w.tasks[i].chunk !in w.taken && (!w.cut ==> w.tasks[i].chunk.offset != w.next)
  {
    assert TaskFiled(w, i);
  }

  lemma LeftBehindIsBeyondARefused(w: Writer, tiles: seq<Chunk>, j: nat)
    requires Inv(w) && AllReceived(w) && TilesOf(tiles, w) && !w.cut
    requires j < |w.tasks| && LeftBehind(w.tasks[j].pc)
    ensures AcceptedBeyondARefused(w)
  {
    TakenEndsAtNext(w, tiles);
    AcceptedIsTakenOrLeft(w, j);
    assert HasChunk(w.tasks, w.tasks[j].chunk);
    var c :| c in tiles && c.offset == w.next;
    var i :| 0 <= i < |w.tasks| && w.tasks[i].chunk == c;
    AcceptedIsTakenOrLeft(w, i);
    assert !Accepted(w.tasks[i].pc) && Accepted(w.tasks[j].pc);
  }

  lemma BeyondARefusedIsLeftBehind(w: Writer, tiles: seq<Chunk>)
    requires Inv(w) && AllReceived(w) && TilesOf(tiles, w) && AcceptedBeyondARefused(w)
    ensures SomeLeftBehind(w)
  {
    var i, j :| && 0 <= i < |w.tasks| && 0 <= j < |w.tasks|
                && !Accepted(w.tasks[i].pc) && Accepted(w.tasks[j].pc)
                && w.tasks[i].chunk.offset < w.tasks[j].chunk.offset;
    TakenEndsAtNext(w, tiles);
    AcceptedIsTakenOrLeft(w, i);
    AcceptedIsTakenOrLeft(w, j);
    assert HasChunk(w.tasks, w.tasks[i].chunk) && HasChunk(w.tasks, w.tasks[j].chunk);
  }

  lemma SomeLeftBehindIff(w: Writer, tiles: seq<Chunk>)
    requires Inv(w) && AllReceived(w) && TilesOf(tiles, w) && !w.cut
    ensures SomeLeftBehind(w) <==> AcceptedBeyondARefused(w)
  {
    if SomeLeftBehind(w) {
      var i :| 0 <= i < |w.tasks| && LeftBehind(w.tasks[i].pc);
      LeftBehindIsBeyondARefused(w, tiles, i);
    }
    if AcceptedBeyondARefused(w) {
      BeyondARefusedIsLeftBehind(w, tiles);
    }
  }

  /** In a run that is not cancelled no saving loop was cut short. */
  lemma UncancelledIsUncut(lim: Limits, world0: World, moves: seq<Move>, j: nat)
    requires Init(world0) && Legal(lim, world0, moves) && j < |Exec(lim, world0, moves).writers|
    requires !Exec(lim, world0, moves).writers[j].cancelled
    ensures WorldInv(Exec(lim, world0, moves)) && !Exec(lim, world0, moves).writers[j].cut
  {
    InitInv(world0);
    RunKeepsCount(lim, world0, moves);
    RunKeepsWorldInv(lim, world0, moves);
    OnlyCancellationCutsShort(lim, world0, moves, j);
  }

  /** Without cancellation the caller can tell: a successful flush was over a gap if and only if EnqueueChunk
      accepted a chunk beyond one that it did not accept. */
  lemma UncancelledFlushIsOverAGapIff(lim: Limits, world0: World, moves: seq<Move>, j: nat, tiles: seq<Chunk>)
    requires Init(world0) && Legal(lim, world0, moves) && j < |Exec(lim, world0, moves).writers|
    requires Succeeded(Exec(lim, world0, moves).writers[j]) && TilesOf(tiles, Exec(lim, world0, moves).writers[j])
    requires !Exec(lim, world0, moves).writers[j].cancelled
    ensures var w := Exec(lim, world0, moves).writers[j];
            w.flush.result.gap <==> AcceptedBeyondARefused(w)
  {
    UncancelledIsUncut(lim, world0, moves, j);
    SomeLeftBehindIff(Exec(lim, world0, moves).writers[j], tiles);
  }

  /** And so, too, whether `Flush` gives the budget back exactly, whatever happens from the hand-over on. */
  lemma FlushIsExactIffNothingBeyondARefused(lim: Limits, world0: World, moves: seq<Move>, j: nat, tiles: seq<Chunk>)
    requires Init(world0) && Legal(lim, world0, moves) && j < |Exec(lim, world0, moves).writers|
    requires var w := Exec(lim, world0, moves).writers[j];
             WriterBudget.ReadyToHandOver(w) && TilesOf(tiles, w) && !w.cancelled
    ensures var world := Exec(lim, world0, moves);
            !AcceptedBeyondARefused(world.writers[j]) <==>
              forall rest :: WriterBudget.EndsEven(lim, world, rest, j)
  {
    UncancelledIsUncut(lim, world0, moves, j);
    var world := Exec(lim, world0, moves);
    SomeLeftBehindIff(world.writers[j], tiles);
    HandOverSeesTheGap(lim, world.limiter, world.writers[j]);
    WriterBudget.FlushIsExactIffNoGap(lim, world, j);
  }

  lemma {:induction false} RunKeepsCount(lim: Limits, world: World, moves: seq<Move>)
    requires Legal(lim, world, moves)
    ensures |Exec(lim, world, moves).writers| == |world.writers|
    decreases |moves|
  {
    if moves == [] {
    } else {
      RunKeepsCount(lim, ApplyIn(lim, world, moves[0]), moves[1..]);
    }
  }

  /** Without cancellation no saving loop is ever cut short. */
  lemma {:induction false} OnlyCancellationCutsShort(lim: Limits, world: World, moves: seq<Move>, j: nat)
    requires Legal(lim, world, moves) && j < |world.writers|
    requires world.writers[j].cut ==> world.writers[j].cancelled
    ensures j < |Exec(lim, world, moves).writers|
    ensures Exec(lim, world, moves).writers[j].cut ==> Exec(lim, world, moves).writers[j].cancelled
    decreases |moves|
  {
    if moves == [] {
    } else {
      OnlyCancellationCutsShort(lim, ApplyIn(lim, world, moves[0]), moves[1..], j);
    }
  }

  // ---------- why a flush fails ----------

  /** A worker ends after a write error, after it saw the cancellation, or once its digest was handed over; and
      `Flush` fails only in the first two cases. */
  predicate FailFits(w: Writer) {
    && (Ending(w.worker) && !w.err ==> Succeeded(w))
    && (HasResult(w.flush) && w.flush.result.Failure? ==> w.err)
  }

  lemma OtherStepKeepsFailFit(lim: Limits, limiter: int, w: Writer, step: Step)
    requires Enabled(w, step) && LeavesWorker(step) && FailFits(w)
    ensures FailFits(Apply(lim, limiter, w, step).1)
  {
    OtherStepFrame(lim, limiter, w, step);
    StepKeepsResult(lim, limiter, w, step);
  }

  lemma WorkerStepKeepsFailFit(lim: Limits, limiter: int, w: Writer, step: Step)
    requires Enabled(w, step) && !LeavesWorker(step) && ErrFits(w) && FailFits(w)
    ensures FailFits(Apply(lim, limiter, w, step).1)
  {
  }

  /** A write error, or a cancellation, of this file. */
  predicate IsToBlame(m: Move, j: nat) {
    m.Move? && m.j == j && (m.step.Cancel? || (m.step.Write? && !m.step.ok))
  }

  lemma BlamelessStep(lim: Limits, limiter: int, w: Writer, step: Step)
    requires Enabled(w, step) && !step.Cancel? && !(step.Write? && !step.ok) && !w.err && !w.cancelled
    ensures var w' := Apply(lim, limiter, w, step).1;
            !w'.err && !w'.cancelled
  {
    if LeavesWorker(step) {
      OtherStepFrame(lim, limiter, w, step);
    }
  }

  lemma {:induction false} BlamelessRun(lim: Limits, world: World, moves: seq<Move>, j: nat)
    requires Legal(lim, world, moves) && j < |world.writers|
    requires forall k :: 0 <= k < |moves| ==> !IsToBlame(moves[k], j)
    requires ErrFits(world.writers[j]) && FailFits(world.writers[j])
    requires !world.writers[j].err && !world.writers[j].cancelled
    ensures j < |Exec(lim, world, moves).writers|
    ensures var w := Exec(lim, world, moves).writers[j];
            FailFits(w) && !w.err && !w.cancelled
    decreases |moves|
  {
    if moves == [] {
    } else {
      var m := moves[0];
      assert !IsToBlame(m, j);
      if m.Move? && m.j == j {
        var w := world.writers[j];
        StepKeepsErrFit(lim, world.limiter, w, m.step);
        BlamelessStep(lim, world.limiter, w, m.step);
        if LeavesWorker(m.step) {
          OtherStepKeepsFailFit(lim, world.limiter, w, m.step);
        } else {
          WorkerStepKeepsFailFit(lim, world.limiter, w, m.step);
        }
      }
      forall k | 0 <= k < |moves[1..]| ensures !IsToBlame(moves[1..][k], j) {
        assert moves[1..][k] == moves[k + 1];
      }
      BlamelessRun(lim, ApplyIn(lim, world, m), moves[1..], j);
    }
  }

  /** Whatever the interleaving, `Flush` fails only if a write to the file failed or the context was cancelled;
      otherwise no worker gives up, and a `Flush` that has a result has the digest. */
  lemma FlushFailsOnlyForAReason(lim: Limits, world0: World, moves: seq<Move>, j: nat)
    requires Init(world0) && Legal(lim, world0, moves) && j < |world0.writers|
    ensures j < |Exec(lim, world0, moves).writers|
    ensures var w := Exec(lim, world0, moves).writers[j];
            (forall k :: 0 <= k < |moves| ==> !IsToBlame(moves[k], j)) ==>
              && (HasResult(w.flush) ==> w.flush.result.Success?)
              && (Ending(w.worker) ==> Succeeded(w))
  {
    RunKeepsCount(lim, world0, moves);
    if forall k :: 0 <= k < |moves| ==> !IsToBlame(moves[k], j) {
      BlamelessRun(lim, world0, moves, j);
    }
  }

  lemma StepKeepsErr(lim: Limits, limiter: int, w: Writer, step: Step)
    requires Enabled(w, step) && w.err
    ensures Apply(lim, limiter, w, step).1.err
  {
    if LeavesWorker(step) {
      OtherStepFrame(lim, limiter, w, step);
    }
  }

  lemma {:induction false} RunKeepsErr(lim: Limits, world: World, moves: seq<Move>, j: nat)
    requires Legal(lim, world, moves) && j < |world.writers| && world.writers[j].err
    ensures j < |Exec(lim, world, moves).writers| && Exec(lim, world, moves).writers[j].err
    decreases |moves|
  {
    if moves == [] {
    } else {
      if moves[0].Move? && moves[0].j == j {
        StepKeepsErr(lim, world.limiter, world.writers[j], moves[0].step);
      }
      RunKeepsErr(lim, ApplyIn(lim, world, moves[0]), moves[1..], j);
    }
  }

  /** And after a failed write it never succeeds, whatever happens before and after. */
  lemma AFailedWriteFailsTheFlush(lim: Limits, world0: World, before: seq<Move>, j: nat, wrote: nat, seen: nat,
                                  after: seq<Move>)
    requires Init(world0) && Legal(lim, world0, before)
    requires EnabledIn(Exec(lim, world0, before), Move(j, Write(false, wrote, seen)))
    requires Legal(lim, ApplyIn(lim, Exec(lim, world0, before), Move(j, Write(false, wrote, seen))), after)
    ensures var world1 := ApplyIn(lim, Exec(lim, world0, before), Move(j, Write(false, wrote, seen)));
            var world2 := Exec(lim, world1, after);
            j < |world2.writers| && !Succeeded(world2.writers[j])
  {
    var world := Exec(lim, world0, before);
    var m := Move(j, Write(false, wrote, seen));
    InitInv(world0);
    RunKeepsWorldInv(lim, world0, before);
    MoveKeepsWorldInv(lim, world, m);
    RunKeepsWorldInv(lim, ApplyIn(lim, world, m), after);
    RunKeepsErr(lim, ApplyIn(lim, world, m), after, j);
  }

  lemma {:induction false} RunsCompose(lim: Limits, world: World, a: seq<Move>, b: seq<Move>)
    requires Legal(lim, world, a) && Legal(lim, Exec(lim, world, a), b)
    ensures Legal(lim, world, a + b) && Exec(lim, world, a + b) == Exec(lim, Exec(lim, world, a), b)
    decreases |a|
  {
    if a == [] {
      assert a + b == b;
    } else {
      RunsCompose(lim, ApplyIn(lim, world, a[0]), a[1..], b);
      WriterBudget.OneMoveFirst(lim, world, a[0], a[1..] + b);
      assert a + b == [a[0]] + (a[1..] + b);
    }
  }

  /** A run from the start, without cancellation, in which reading the first of two chunks fails: `Flush` returns
      success, not a byte was written, and the budget got more back than was taken. */
  lemma FlushCanSucceedOnAnIncompleteFile() returns (lim: Limits, world0: World, moves: seq<Move>, tiles: seq<Chunk>)
    ensures Init(world0) && Legal(lim, world0, moves) && |Exec(lim, world0, moves).writers| == 1
    ensures var w := Exec(lim, world0, moves).writers[0];
            && WriterBudget.AtRest(w) && w.flush.result.Success? && !w.cancelled && TilesOf(tiles, w)
            && w.file == [] && Flat(tiles) == [7, 8] && Own(w) < 0
  {
    var reach, release;
    lim, world0, reach := WriterBudget.GapIsReachable();
    InitInv(world0);
    RunKeepsWorldInv(lim, world0, reach);
    var world := Exec(lim, world0, reach);
    release := WriterBudget.GapCanReleaseTwice(lim, world, 0);
    moves := reach + release;
    RunsCompose(lim, world0, reach, release);
    RunKeepsCount(lim, world, release);
    tiles := [Chunk(0, 1, [7]), Chunk(1, 1, [8])];
    TwoTiles(tiles);
    RunKeepsChunks(lim, world, release, 0);
    TilesOfTwo(world.writers[0], Exec(lim, world, release).writers[0], tiles);
  }

  lemma TwoTiles(tiles: seq<Chunk>)
    requires tiles == [Chunk(0, 1, [7]), Chunk(1, 1, [8])]
    ensures Tiles(tiles) && Flat(tiles) == [7, 8]
  {
    assert tiles[1..] == [Chunk(1, 1, [8])] && tiles[1..][1..] == [];
    FlatSingle(tiles[1]);
    assert Contiguous(tiles[1..], 1);
    assert [7] + [8] == [7, 8];
  }

  lemma TilesOfTwo(before: Writer, w: Writer, tiles: seq<Chunk>)
    requires tiles == [Chunk(0, 1, [7]), Chunk(1, 1, [8])] && Tiles(tiles)
    requires |before.tasks| == 2 && before.tasks[0].chunk == tiles[0] && before.tasks[1].chunk == tiles[1]
    requires SameChunks(before, w)
    ensures TilesOf(tiles, w)
  {
    assert w.tasks[0].chunk == tiles[0] && w.tasks[1].chunk == tiles[1];
  }

  predicate SameChunks(before: Writer, w: Writer) {
    |w.tasks| == |before.tasks| && forall i :: 0 <= i < |w.tasks| ==> w.tasks[i].chunk == before.tasks[i].chunk
  }

  /** Chunks move, but they do not change. */
  lemma {:induction false} RunKeepsChunks(lim: Limits, world: World, moves: seq<Move>, j: nat)
    requires Legal(lim, world, moves) && j < |world.writers|
    ensures j < |Exec(lim, world, moves).writers|
    ensures SameChunks(world.writers[j], Exec(lim, world, moves).writers[j])
    decreases |moves|
  {
    if moves == [] {
    } else {
      if moves[0].Move? && moves[0].j == j {
        ApplyMovesSubject(lim, world.limiter, world.writers[j], moves[0].step);
      }
      RunKeepsChunks(lim, ApplyIn(lim, world, moves[0]), moves[1..], j);
    }
  }
}
