/**
 The counters of common/chunkStatusLogger.go: how many chunks are in each state, kept by atomic operations
 on the counters and on each chunk's own state, without a lock.
 */
module ChunkStatus {
  import opened Sums

  const NUM_WAIT_REASONS: nat := 21

  /** The index of a wait reason; 0 is Nothing, 19 is Done and 20 is Cancelled. */
  type Reason = r: nat | r < NUM_WAIT_REASONS

  const NOTHING: Reason := 0
  const BODY: Reason := 6
  const BODY_REREAD_DUE_TO_MEM: Reason := 7
  const BODY_REREAD_DUE_TO_SPEED: Reason := 8

  // ---------- one call that nobody interrupts ----------

  class ChunkID {
    var waitReasonIndex: Reason

    constructor ()
      ensures waitReasonIndex == NOTHING
    {
      waitReasonIndex := NOTHING;
    }
  }

  function Bump(counts: seq<int>, r: Reason, delta: int): seq<int>
    requires |counts| == NUM_WAIT_REASONS
  {
    counts[r := counts[r] + delta]
  }

  /** The counters after a chunk went from `before` to `after`.  Leaving Nothing is not counted, entering it is. */
  function Transition(counts: seq<int>, before: Reason, after: Reason): seq<int>
    requires |counts| == NUM_WAIT_REASONS
  {
    Bump(if before > NOTHING then Bump(counts, before, -1) else counts, after, 1)
  }

  datatype Direction = Upload | Download | S2SCopy

  function AllReasons(td: Direction): seq<Reason> {
    match td
    case Upload => [15, 16, 17, 18, 2, 12, 3, 4, 6, 14]
    case Download => [1, 2, 3, 4, 5, 6, 9, 10, 11, 12, 14]
    case S2SCopy => [3, 4, 13, 14]
  }

  /** What is reported under a reason: re-reads of a body count as body. */
  function Reported(counts: seq<int>, r: Reason): int
    requires |counts| == NUM_WAIT_REASONS
  {
    if r == BODY then counts[BODY] + counts[BODY_REREAD_DUE_TO_SPEED] + counts[BODY_REREAD_DUE_TO_MEM] else counts[r]
  }

  class ChunkStatusLogger {
    const counts: array<int>

    constructor ()
      ensures fresh(counts) && counts[..] == seq(NUM_WAIT_REASONS, _ => 0)
    {
      counts := new int[NUM_WAIT_REASONS](_ => 0);
    }

    method CountStateTransition(id: ChunkID, newReason: Reason)
      requires counts.Length == NUM_WAIT_REASONS
      modifies id, counts
      ensures id.waitReasonIndex == newReason
      ensures counts[..] == Transition(old(counts[..]), old(id.waitReasonIndex), newReason)
    {
      var oldReasonIndex := id.waitReasonIndex;
      id.waitReasonIndex := newReason;
      if oldReasonIndex > 0 && oldReasonIndex < counts.Length {
        counts[oldReasonIndex] := counts[oldReasonIndex] - 1;
      }
      if newReason < counts.Length {
        counts[newReason] := counts[newReason] + 1;
      }
    }

    /** One number for each listed reason.  No list asks for a re-read state, where the source would panic. */
    method GetCounts(td: Direction) returns (result: seq<(Reason, int)>)
      requires counts.Length == NUM_WAIT_REASONS
      ensures |result| == |AllReasons(td)|
      ensures forall i :: 0 <= i < |result| ==>
                result[i] == (AllReasons(td)[i], Reported(counts[..], AllReasons(td)[i]))
    {
      var allReasons := AllReasons(td);
      result := [];
      for i := 0 to |allReasons|
        invariant |result| == i
        invariant forall k :: 0 <= k < i ==> result[k] == (allReasons[k], Reported(counts[..], allReasons[k]))
      {
        var reason := allReasons[i];
        var count := counts[reason];
        assert reason != BODY_REREAD_DUE_TO_SPEED && reason != BODY_REREAD_DUE_TO_MEM;
        if reason == BODY {
          count := count + counts[BODY_REREAD_DUE_TO_SPEED];
          count := count + counts[BODY_REREAD_DUE_TO_MEM];
        }
        result := result + [(reason, count)];
      }
    }
  }

  /** The function is meant to be idempotent.  Saying again what state a chunk is in changes nothing exactly
      when that state is not Nothing.  Nothing in the repository puts a chunk into Nothing, so the exception can
      only be met through the interface. */
  lemma RepeatingIsHarmlessIff(counts: seq<int>, r: Reason)
    requires |counts| == NUM_WAIT_REASONS
    ensures Transition(counts, r, r) == counts <==> r != NOTHING
  {
    if r == NOTHING {
      assert Transition(counts, r, r)[r] == counts[r] + 1;
    }
  }

  // ---------- every interleaving of concurrent calls ----------

  /** Where one goroutine stands inside the function, and for which chunk it was called. */
  datatype Task =
    | Idle
    | MustDecrement(c: nat, before: Reason, after: Reason)
    | MustIncrement(c: nat, after: Reason)

  /** `toNothing` is a history variable: how often a chunk was put into Nothing. */
  datatype State = State(chunks: seq<Reason>, counts: seq<int>, tasks: seq<Task>, toNothing: nat)

  datatype Step =
    | SwapReason(t: nat, c: nat, newReason: Reason)
    | Decrement(t: nat)
    | Increment(t: nat)

  predicate Init(s: State) {
    && (forall i :: 0 <= i < |s.chunks| ==> s.chunks[i] == NOTHING)
    && s.counts == seq(NUM_WAIT_REASONS, _ => 0)
    && (forall i :: 0 <= i < |s.tasks| ==> s.tasks[i] == Idle)
    && s.toNothing == 0
  }

  predicate Enabled(s: State, step: Step) {
    match step
    case SwapReason(t, c, _) => t < |s.tasks| && s.tasks[t].Idle? && c < |s.chunks|
    case Decrement(t) => t < |s.tasks| && s.tasks[t].MustDecrement?
    case Increment(t) => t < |s.tasks| && s.tasks[t].MustIncrement?
  }

  function Apply(s: State, step: Step): State
    requires |s.counts| == NUM_WAIT_REASONS && Enabled(s, step)
  {
    match step
    case SwapReason(t, c, newReason) =>
      var before := s.chunks[c];
      s.(chunks := s.chunks[c := newReason],
         tasks := s.tasks[t := if before > NOTHING then MustDecrement(c, before, newReason)
                                else MustIncrement(c, newReason)],
         toNothing := if newReason == NOTHING then s.toNothing + 1 else s.toNothing)
    case Decrement(t) =>
      s.(counts := Bump(s.counts, s.tasks[t].before, -1),
         tasks := s.tasks[t := MustIncrement(s.tasks[t].c, s.tasks[t].after)])
    case Increment(t) =>
      s.(counts := Bump(s.counts, s.tasks[t].after, 1), tasks := s.tasks[t := Idle])
  }

  predicate Legal(s: State, steps: seq<Step>)
    requires |s.counts| == NUM_WAIT_REASONS
    decreases |steps|
  {
    steps == [] || (Enabled(s, steps[0]) && Legal(Apply(s, steps[0]), steps[1..]))
  }

  function Exec(s: State, steps: seq<Step>): (r: State)
    requires |s.counts| == NUM_WAIT_REASONS && Legal(s, steps)
    ensures |r.counts| == NUM_WAIT_REASONS
    decreases |steps|
  {
    if steps == [] then s else Exec(Apply(s, steps[0]), steps[1..])
  }

  function In(r: Reason): Reason -> int {
    c => if c == r then 1 else 0
  }

  /** What a goroutine still has to take away from the counter of `r`, less what it still has to add. */
  function Pending(r: Reason): Task -> int {
    (t: Task) =>
      match t
      case Idle => 0
      case MustDecrement(_, before, after) => (if before == r then 1 else 0) - (if after == r then 1 else 0)
      case MustIncrement(_, after) => if after == r then -1 else 0
  }

  ghost predicate CountIsRight(s: State, r: Reason)
    requires |s.counts| == NUM_WAIT_REASONS
  {
    if r == NOTHING then s.counts[r] == s.toNothing + SumOf(Pending(r), s.tasks)
    else s.counts[r] == SumOf(In(r), s.chunks) + SumOf(Pending(r), s.tasks)
  }

  /** No task ever has to take anything away from the counter of Nothing. */
  ghost predicate Inv(s: State) {
    && |s.counts| == NUM_WAIT_REASONS
    && (forall t :: 0 <= t < |s.tasks| && s.tasks[t].MustDecrement? ==> s.tasks[t].before != NOTHING)
    && (forall r: Reason :: CountIsRight(s, r))
  }

  lemma InitHolds(s: State)
    requires Init(s)
    ensures Inv(s)
  {
    forall r: Reason ensures CountIsRight(s, r) {
      SumOfNonNegative(Pending(r), s.tasks);
      SumOfNonNegative(In(r), s.chunks);
    }
  }

  lemma StepKeepsCount(s: State, step: Step, r: Reason)
    requires Inv(s) && Enabled(s, step)
    ensures CountIsRight(Apply(s, step), r)
  {
    assert CountIsRight(s, r);
    var s' := Apply(s, step);
    match step
    case SwapReason(t, c, newReason) =>
      SumOfUpdate(In(r), s.chunks, c, newReason);
      SumOfUpdate(Pending(r), s.tasks, t, s'.tasks[t]);
    case Decrement(t) =>
      SumOfUpdate(Pending(r), s.tasks, t, s'.tasks[t]);
    case Increment(t) =>
      SumOfUpdate(Pending(r), s.tasks, t, Idle);
  }

  lemma {:induction false} RunKeepsInv(s: State, steps: seq<Step>)
    requires Inv(s) && Legal(s, steps)
    ensures Inv(Exec(s, steps))
    decreases |steps|
  {
    if steps == [] {
    } else {
      forall r: Reason ensures CountIsRight(Apply(s, steps[0]), r) {
        StepKeepsCount(s, steps[0], r);
      }
      RunKeepsInv(Apply(s, steps[0]), steps[1..]);
    }
  }

  /** Whatever the interleaving, every counter but that of Nothing is the number of chunks in that state, but
      for the updates still under way; and the counter of Nothing counts entries only. */
  lemma CountsAgreeWithChunks(s0: State, steps: seq<Step>, r: Reason)
    requires Init(s0) && Legal(s0, steps)
    ensures var s := Exec(s0, steps);
            s.counts[r] == (if r == NOTHING then s.toNothing else SumOf(In(r), s.chunks)) + SumOf(Pending(r), s.tasks)
  {
    InitHolds(s0);
    RunKeepsInv(s0, steps);
    assert CountIsRight(Exec(s0, steps), r);
  }

  function AtLeast(r: nat): Reason -> int {
    c => if c >= r then 1 else 0
  }

  function TotalFrom(counts: seq<int>, r: nat): int
    requires r <= |counts|
    decreases |counts| - r
  {
    if r == |counts| then 0 else counts[r] + TotalFrom(counts, r + 1)
  }

  lemma {:induction false} AtLeastSplits(chunks: seq<Reason>, r: Reason)
    ensures SumOf(AtLeast(r), chunks) == SumOf(In(r), chunks) + SumOf(AtLeast(r + 1), chunks)
  {
    if chunks == [] {
    } else {
      AtLeastSplits(chunks[1..], r);
    }
  }

  lemma {:induction false} TotalCountsChunks(s: State, r: nat)
    requires 0 < r <= NUM_WAIT_REASONS && |s.counts| == NUM_WAIT_REASONS
    requires forall q: Reason :: q > 0 ==> s.counts[q] == SumOf(In(q), s.chunks)
    ensures TotalFrom(s.counts, r) == SumOf(AtLeast(r), s.chunks)
    decreases NUM_WAIT_REASONS - r
  {
    if r == NUM_WAIT_REASONS {
      SumOfNonNegative(AtLeast(r), s.chunks);
    } else {
      TotalCountsChunks(s, r + 1);
      AtLeastSplits(s.chunks, r);
    }
  }

  /** At rest the counters are exact, none is negative, and together they count the chunks that are not in
      Nothing. */
  lemma CountsAreExactAtRest(s0: State, steps: seq<Step>)
    requires Init(s0) && Legal(s0, steps)
    requires forall t :: 0 <= t < |Exec(s0, steps).tasks| ==> Exec(s0, steps).tasks[t].Idle?
    ensures var s := Exec(s0, steps);
            && (forall r: Reason :: r > 0 ==> s.counts[r] == SumOf(In(r), s.chunks) >= 0)
            && s.counts[NOTHING] == s.toNothing
            && TotalFrom(s.counts, 1) == SumOf(AtLeast(1), s.chunks)
  {
    var s := Exec(s0, steps);
    InitHolds(s0);
    RunKeepsInv(s0, steps);
    forall r: Reason
      ensures s.counts[r] == if r == NOTHING then s.toNothing else SumOf(In(r), s.chunks)
      ensures SumOf(In(r), s.chunks) >= 0
    {
      assert CountIsRight(s, r);
      SumOfNonNegative(Pending(r), s.tasks);
      SumOfNonNegative(In(r), s.chunks);
    }
    TotalCountsChunks(s, 1);
  }

  // ---------- what is reported ----------

  /** A chunk in state `c` is reported under `r`; 6 is Body, 7 and 8 are the two states of re-reading one. */
  predicate ReportedUnder(c: Reason, r: Reason) {
    c == r || (r == 6 && (c == 7 || c == 8))
  }

  function Under(r: Reason): Reason -> int {
    (c: Reason) => if ReportedUnder(c, r) then 1 else 0
  }

  lemma {:induction false} UnderIsIn(chunks: seq<Reason>, r: Reason)
    ensures SumOf(Under(r), chunks) ==
            SumOf(In(r), chunks) + if r == 6 then SumOf(In(7), chunks) + SumOf(In(8), chunks) else 0
  {
    if chunks == [] {
    } else {
      UnderIsIn(chunks[1..], r);
    }
  }

  lemma ListedReason(td: Direction, i: nat)
    requires i < |AllReasons(td)|
    ensures AllReasons(td)[i] > 0
  {
  }

  /** At rest every reported number is the number of chunks reported under it. */
  lemma ReportsCountChunks(s0: State, steps: seq<Step>, td: Direction, i: nat)
    requires Init(s0) && Legal(s0, steps) && i < |AllReasons(td)|
    requires forall t :: 0 <= t < |Exec(s0, steps).tasks| ==> Exec(s0, steps).tasks[t].Idle?
    ensures var s, r := Exec(s0, steps), AllReasons(td)[i];
            Reported(s.counts, r) == SumOf(Under(r), s.chunks)
  {
    var s, r := Exec(s0, steps), AllReasons(td)[i];
    CountsAreExactAtRest(s0, steps);
    ListedReason(td, i);
    UnderIsIn(s.chunks, r);
    assert s.counts[r] == SumOf(In(r), s.chunks);
    assert s.counts[7] == SumOf(In(7), s.chunks) && s.counts[8] == SumOf(In(8), s.chunks);
  }

  /** No chunk is reported twice. */
  lemma ReportedOnceAtMost(td: Direction, c: Reason, i: nat, j: nat)
    requires i < j < |AllReasons(td)|
    ensures !(ReportedUnder(c, AllReasons(td)[i]) && ReportedUnder(c, AllReasons(td)[j]))
  {
  }

  /** The states in which chunks are not reported: Nothing, Done and Cancelled, for uploads also the states of a
      download and for downloads those of an upload; between services all but Worker, FilePacer, S2SCopyOnWire and
      Epilogue. */
  predicate Unreported(td: Direction, c: Reason) {
    match td
    case Upload => c in {0, 1, 5, 9, 10, 11, 13, 19, 20}
    case Download => c in {0, 13, 15, 16, 17, 18, 19, 20}
    case S2SCopy => c !in {3, 4, 13, 14}
  }

  lemma ReportedIff(td: Direction, c: Reason)
    ensures Unreported(td, c) <==> forall i :: 0 <= i < |AllReasons(td)| ==> !ReportedUnder(c, AllReasons(td)[i])
  {
    var r := if c == 7 || c == 8 then BODY else c;
    ListedReasons(td, r);
    if r in AllReasons(td) {
      var i :| 0 <= i < |AllReasons(td)| && AllReasons(td)[i] == r;
      assert ReportedUnder(c, AllReasons(td)[i]);
    }
  }

  lemma ListedReasons(td: Direction, r: Reason)
    requires r != 7 && r != 8
    ensures r in AllReasons(td) <==> !Unreported(td, r)
    ensures 7 !in AllReasons(td) && 8 !in AllReasons(td)
  {
    match td
    case Upload => assert AllReasons(td) == [15, 16, 17, 18, 2, 12, 3, 4, 6, 14];
    case Download => assert AllReasons(td) == [1, 2, 3, 4, 5, 6, 9, 10, 11, 12, 14];
    case S2SCopy => assert AllReasons(td) == [3, 4, 13, 14];
  }

  /** A call that nobody interrupts is its steps in a row. */
  lemma UninterruptedCall(s: State, t: nat, c: nat, newReason: Reason)
    requires |s.counts| == NUM_WAIT_REASONS && t < |s.tasks| && s.tasks[t].Idle? && c < |s.chunks|
    ensures var before := s.chunks[c];
            var steps := if before > NOTHING then [SwapReason(t, c, newReason), Decrement(t), Increment(t)]
                         else [SwapReason(t, c, newReason), Increment(t)];
            && Legal(s, steps)
            && Exec(s, steps).counts == Transition(s.counts, before, newReason)
            && Exec(s, steps).chunks == s.chunks[c := newReason]
            && Exec(s, steps).tasks == s.tasks
  {
    var before := s.chunks[c];
    var s1 := Apply(s, SwapReason(t, c, newReason));
    var s2 := if before > NOTHING then Apply(s1, Decrement(t)) else s1;
    var s3 := Apply(s2, Increment(t));
    ExecOne(s2, Increment(t));
    if before > NOTHING {
      ExecTwo(s1, Decrement(t), Increment(t));
      ExecThree(s, SwapReason(t, c, newReason), Decrement(t), Increment(t));
    } else {
      ExecTwo(s, SwapReason(t, c, newReason), Increment(t));
    }
    assert s3.tasks == s.tasks;
  }

  lemma ExecOne(s: State, a: Step)
    requires |s.counts| == NUM_WAIT_REASONS && Enabled(s, a)
    ensures Legal(s, [a]) && Exec(s, [a]) == Apply(s, a)
  {
    assert [a][1..] == [];
  }

  lemma ExecTwo(s: State, a: Step, b: Step)
    requires |s.counts| == NUM_WAIT_REASONS && Enabled(s, a) && Enabled(Apply(s, a), b)
    ensures Legal(s, [a, b]) && Exec(s, [a, b]) == Apply(Apply(s, a), b)
  {
    ExecOne(Apply(s, a), b);
    assert [a, b][1..] == [b];
  }

  lemma ExecThree(s: State, a: Step, b: Step, c: Step)
    requires |s.counts| == NUM_WAIT_REASONS && Enabled(s, a)
    requires Enabled(Apply(s, a), b) && Enabled(Apply(Apply(s, a), b), c)
    ensures Legal(s, [a, b, c]) && Exec(s, [a, b, c]) == Apply(Apply(Apply(s, a), b), c)
  {
    ExecTwo(Apply(s, a), b, c);
    assert [a, b, c][1..] == [b, c];
  }

  // ---------- when a counter can be read below zero ----------

  ghost predicate InCall(s: State, c: nat) {
    exists t :: 0 <= t < |s.tasks| && !s.tasks[t].Idle? && s.tasks[t].c == c
  }

  /** No call begins for a chunk while another call for the same chunk is under way. */
  ghost predicate Apart(s: State, steps: seq<Step>)
    requires |s.counts| == NUM_WAIT_REASONS && Legal(s, steps)
    decreases |steps|
  {
    steps == [] ||
    ((steps[0].SwapReason? ==> !InCall(s, steps[0].c)) && Apart(Apply(s, steps[0]), steps[1..]))
  }

  /** Each call has a chunk of its own, which is already in its new state. */
  ghost predicate OwnChunks(chunks: seq<Reason>, tasks: seq<Task>) {
    && (forall t :: 0 <= t < |tasks| && !tasks[t].Idle? ==>
          tasks[t].c < |chunks| && chunks[tasks[t].c] == tasks[t].after)
    && (forall t, u :: 0 <= t < u < |tasks| && !tasks[t].Idle? && !tasks[u].Idle? ==> tasks[t].c != tasks[u].c)
  }

  /** Then what is still to be added to a counter is covered by the chunks that are in its state. */
  lemma {:induction false} OwnChunksCover(chunks: seq<Reason>, tasks: seq<Task>, r: Reason)
    requires OwnChunks(chunks, tasks) && r > NOTHING
    ensures SumOf(In(r), chunks) + SumOf(Pending(r), tasks) >= 0
    decreases |tasks|
  {
    if tasks == [] {
      SumOfNonNegative(In(r), chunks);
    } else if Pending(r)(tasks[0]) >= 0 {
      OwnChunksCover(chunks, tasks[1..], r);
    } else {
      SumOfUpdate(In(r), chunks, tasks[0].c, NOTHING);
      OwnChunksCover(chunks[tasks[0].c := NOTHING], tasks[1..], r);
    }
  }

  lemma StepKeepsOwnChunks(s: State, step: Step)
    requires |s.counts| == NUM_WAIT_REASONS && Enabled(s, step) && OwnChunks(s.chunks, s.tasks)
    requires step.SwapReason? ==> !InCall(s, step.c)
    ensures OwnChunks(Apply(s, step).chunks, Apply(s, step).tasks)
  {
  }

  /** Nothing is ever taken away from the counter of Nothing. */
  lemma StepKeepsNothing(s: State, step: Step)
    requires Inv(s) && Enabled(s, step) && s.counts[NOTHING] >= 0
    ensures Apply(s, step).counts[NOTHING] >= 0
  {
  }

  lemma {:induction false} RunKeepsOwnChunks(s: State, steps: seq<Step>)
    requires Inv(s) && Legal(s, steps) && Apart(s, steps)
    requires OwnChunks(s.chunks, s.tasks) && s.counts[NOTHING] >= 0
    ensures Inv(Exec(s, steps)) && OwnChunks(Exec(s, steps).chunks, Exec(s, steps).tasks)
    ensures Exec(s, steps).counts[NOTHING] >= 0
    decreases |steps|
  {
    if steps == [] {
    } else {
      forall r: Reason ensures CountIsRight(Apply(s, steps[0]), r) {
        StepKeepsCount(s, steps[0], r);
      }
      StepKeepsOwnChunks(s, steps[0]);
      StepKeepsNothing(s, steps[0]);
      RunKeepsOwnChunks(Apply(s, steps[0]), steps[1..]);
    }
  }

  /** However many goroutines there are and wherever they stand: as long as calls for one chunk do not overlap, no
      counter is ever below zero. */
  lemma ApartNoCounterDips(s0: State, steps: seq<Step>, r: Reason)
    requires Init(s0) && Legal(s0, steps) && Apart(s0, steps)
    ensures Exec(s0, steps).counts[r] >= 0
  {
    InitHolds(s0);
    RunKeepsOwnChunks(s0, steps);
    var s := Exec(s0, steps);
    assert CountIsRight(s, r);
    if r > NOTHING {
      OwnChunksCover(s.chunks, s.tasks, r);
    }
  }

  /** One overlap is enough for the counter of any state but Nothing. */
  lemma ACounterCanDipBelowZero(r: Reason, q: Reason)
    requires 0 < r && r != q
    ensures var s0 := State([NOTHING], seq(NUM_WAIT_REASONS, _ => 0), [Idle, Idle], 0);
            var steps := [SwapReason(0, 0, r), SwapReason(1, 0, q), Decrement(1)];
            && Init(s0) && Legal(s0, steps) && !Apart(s0, steps)
            && Exec(s0, steps).counts[r] == -1
  {
    var s0 := State([NOTHING], seq(NUM_WAIT_REASONS, _ => 0), [Idle, Idle], 0);
    var steps := [SwapReason(0, 0, r), SwapReason(1, 0, q), Decrement(1)];
    ExecThree(s0, steps[0], steps[1], steps[2]);
    var s1 := Apply(s0, steps[0]);
    assert InCall(s1, 0) by {
      assert !s1.tasks[0].Idle?;
    }
    assert steps[1..][0] == steps[1];
  }
}
