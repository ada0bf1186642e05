/**
 The RAM budget of common/cacheLimiter.go.

 The class is one goroutine's view: what the other goroutines do between its own atomic
 operations is an argument.  The state machine below it is everybody's view: any number of
 goroutines, their atomic operations interleaved in any order.
 */
module CacheLimiting {
  import opened Sums

  /** What happens around one round of `WaitUntilAdd`: which limit the caller's predicate selects, what
      other goroutines add (net) between an over-limit add and its undo, what they add (net) during the
      wait, and whether the context is found cancelled. */
  datatype Round = Round(relaxed: bool, beforeUndo: int, duringWait: int, cancelled: bool)

  datatype WaitOutcome = Granted(round: nat) | Cancelled(round: nat) | StillWaiting

  class CacheLimiter {
    var value: int
    const limit: nat
    const strictLimit: nat

    constructor (limit: nat, strictLimit: nat)
      requires strictLimit <= limit
      ensures value == 0 && this.limit == limit && this.strictLimit == strictLimit
    {
      value := 0;
      this.limit := limit;
      this.strictLimit := strictLimit;
    }

    /** `atomic.AddInt64`: adds and returns the new value in one indivisible step. */
    method AtomicAdd(delta: int) returns (now: int)
      modifies this`value
      ensures value == old(value) + delta && now == value
    {
      value := value + delta;
      now := value;
    }

    /** Optimistic add, undone when it overshoots.  `others` is the net effect of everybody else
        between the add and the undo. */
    method TryAdd(count: int, useRelaxedLimit: bool, others: int) returns (added: bool)
      modifies this`value
      ensures added <==> old(value) + count <= if useRelaxedLimit then limit else strictLimit
      ensures added ==> value == old(value) + count
      ensures !added ==> value == old(value) + others
    {
      var lim := limit;
      var strict := !useRelaxedLimit;
      if strict {
        lim := strictLimit;
      }
      var now := AtomicAdd(count);
      if now <= lim {
        return true;
      }
      value := value + others;  // the other goroutines run here
      now := AtomicAdd(-count);
      return false;
    }

    /** The value at the start of round `k` when every earlier round was refused. */
    static function ValueAtRound(start: int, rounds: seq<Round>, k: nat): int
      requires k <= |rounds|
    {
      if k == 0 then start
      else ValueAtRound(start, rounds, k - 1) + rounds[k - 1].beforeUndo + rounds[k - 1].duringWait
    }

    ghost predicate Refused(start: int, count: int, rounds: seq<Round>, k: nat)
      requires k < |rounds|
    {
      ValueAtRound(start, rounds, k) + count > if rounds[k].relaxed then limit else strictLimit
    }

    /** The first `n` rounds were refused, and none of them found the context cancelled. */
    ghost predicate RefusedSoFar(start: int, count: int, rounds: seq<Round>, n: nat)
      requires n <= |rounds|
    {
      forall j :: 0 <= j < n ==> Refused(start, count, rounds, j) && !rounds[j].cancelled
    }

    lemma OneMoreRefused(start: int, count: int, rounds: seq<Round>, n: nat)
      requires n < |rounds| && RefusedSoFar(start, count, rounds, n)
      requires Refused(start, count, rounds, n) && !rounds[n].cancelled
      ensures RefusedSoFar(start, count, rounds, n + 1)
      ensures ValueAtRound(start, rounds, n + 1)
           == ValueAtRound(start, rounds, n) + rounds[n].beforeUndo + rounds[n].duringWait
    {
    }

    /** Retries until the add is accepted or the context is cancelled.  Only the accepted round leaves
        anything of this call in `value`. */
    method WaitUntilAdd(count: int, rounds: seq<Round>) returns (r: WaitOutcome)
      modifies this`value
      ensures var before := old(value);
              match r {
                case Granted(k) =>
                  && k < |rounds| && RefusedSoFar(before, count, rounds, k)
                  && !Refused(before, count, rounds, k)
                  && value == ValueAtRound(before, rounds, k) + count
                case Cancelled(k) =>
                  && k < |rounds| && RefusedSoFar(before, count, rounds, k)
                  && Refused(before, count, rounds, k) && rounds[k].cancelled
                  && value == ValueAtRound(before, rounds, k) + rounds[k].beforeUndo
                case StillWaiting =>
                  && RefusedSoFar(before, count, rounds, |rounds|)
                  && value == ValueAtRound(before, rounds, |rounds|)
              }
    {
      ghost var before := value;
      var n := 0;
      while n < |rounds|
        invariant n <= |rounds| && RefusedSoFar(before, count, rounds, n)
        invariant value == ValueAtRound(before, rounds, n)
      {
        var added := TryAdd(count, rounds[n].relaxed, rounds[n].beforeUndo);
        if added {
          return Granted(n);
        }
        if rounds[n].cancelled {
          return Cancelled(n);
        }
        value := value + rounds[n].duringWait;  // the other goroutines run here
        OneMoreRefused(before, count, rounds, n);
        n := n + 1;
      }
      return StillWaiting;
    }

    method Remove(count: int)
      modifies this`value
      ensures value == old(value) - count
    {
      var negativeDelta := -count;
      var _ := AtomicAdd(negativeDelta);
    }
  }

  // ---------- every interleaving of concurrent calls ----------

  datatype Limits = Limits(limit: nat, strictLimit: nat) {
    function Allowed(relaxed: bool): nat {
      if relaxed then limit else strictLimit
    }
  }

  /** Where one goroutine stands inside `TryAdd`: nowhere, or just past an add that overshot. */
  datatype Phase = Ready | MustUndo(count: nat)

  /** `granted` is a history variable: the bytes of all calls that returned true, less the bytes removed. */
  datatype State = State(value: int, granted: int, phases: seq<Phase>)

  datatype Step =
    | Add(i: nat, count: nat, relaxed: bool)
    | Undo(i: nat)
    | Remove(count: nat)

  function Undue(p: Phase): int {
    match p
    case Ready => 0
    case MustUndo(count) => count
  }

  predicate Init(s: State) {
    s.value == 0 && s.granted == 0 && forall i :: 0 <= i < |s.phases| ==> s.phases[i] == Ready
  }

  predicate Accepts(lim: Limits, s: State, count: nat, relaxed: bool) {
    s.value + count <= lim.Allowed(relaxed)
  }

  /** Callers undo what they must.  Nothing keeps a caller from removing more than it was granted. */
  predicate Enabled(s: State, step: Step) {
    match step
    case Add(i, _, _) => i < |s.phases| && s.phases[i].Ready?
    case Undo(i) => i < |s.phases| && s.phases[i].MustUndo?
    case Remove(_) => true
  }

  function Apply(lim: Limits, s: State, step: Step): State
    requires Enabled(s, step)
  {
    match step
    case Add(i, count, relaxed) =>
      if Accepts(lim, s, count, relaxed) then
        s.(value := s.value + count, granted := s.granted + count)
      else
        s.(value := s.value + count, phases := s.phases[i := MustUndo(count)])
    case Undo(i) =>
      s.(value := s.value - s.phases[i].count, phases := s.phases[i := Ready])
    case Remove(count) =>
      s.(value := s.value - count, granted := s.granted - count)
  }

  predicate Legal(lim: Limits, s: State, steps: seq<Step>)
    decreases |steps|
  {
    steps == [] || (Enabled(s, steps[0]) && Legal(lim, Apply(lim, s, steps[0]), steps[1..]))
  }

  function Exec(lim: Limits, s: State, steps: seq<Step>): State
    requires Legal(lim, s, steps)
    decreases |steps|
  {
    if steps == [] then s else Exec(lim, Apply(lim, s, steps[0]), steps[1..])
  }

  /** The counter is what was granted plus what still has to be undone. */
  ghost predicate Balanced(lim: Limits, s: State) {
    s.value == s.granted + SumOf(Undue, s.phases) && s.granted <= lim.limit
  }

  lemma PendingIsNonNegative(s: State)
    ensures SumOf(Undue, s.phases) >= 0
    ensures SumOf(Undue, s.phases) == 0 <==> forall i :: 0 <= i < |s.phases| ==> Undue(s.phases[i]) == 0
  {
    SumOfNonNegative(Undue, s.phases);
  }

  lemma StepKeepsBalance(lim: Limits, s: State, step: Step)
    requires lim.strictLimit <= lim.limit
    requires Balanced(lim, s) && Enabled(s, step)
    ensures Balanced(lim, Apply(lim, s, step))
  {
    PendingIsNonNegative(s);
    match step
    case Add(i, count, relaxed) => SumOfUpdate(Undue, s.phases, i, MustUndo(count));
    case Undo(i) => SumOfUpdate(Undue, s.phases, i, Ready);
    case Remove(_) =>
  }

  lemma {:induction false} RunKeepsBalance(lim: Limits, s: State, steps: seq<Step>)
    requires lim.strictLimit <= lim.limit
    requires Balanced(lim, s) && Legal(lim, s, steps)
    ensures Balanced(lim, Exec(lim, s, steps))
    decreases |steps|
  {
    if steps == [] {
    } else {
      StepKeepsBalance(lim, s, steps[0]);
      RunKeepsBalance(lim, Apply(lim, s, steps[0]), steps[1..]);
    }
  }

  /** Whatever the interleaving: what is granted and not yet removed stays within the limit; a call is
      accepted exactly when the grants, the overshoots not yet undone and its own bytes fit together into the limit
      it is tested against, which for a strict call is the strict one; what is accepted strictly would be accepted
      relaxed; and after an accepted strict call the grants are within the strict limit. */
  lemma NeverOverGrants(lim: Limits, s0: State, steps: seq<Step>)
    requires lim.strictLimit <= lim.limit
    requires Init(s0) && Legal(lim, s0, steps)
    ensures var s := Exec(lim, s0, steps);
            && s.granted <= lim.limit
            && s.value >= s.granted
            && (forall count: nat ::
                  Accepts(lim, s, count, true) <==> s.granted + SumOf(Undue, s.phases) + count <= lim.limit)
            && (forall count: nat ::
                  Accepts(lim, s, count, false) <==> s.granted + SumOf(Undue, s.phases) + count <= lim.strictLimit)
            && (forall count: nat :: Accepts(lim, s, count, false) ==>
                  Accepts(lim, s, count, true) && s.granted + count <= lim.strictLimit)
  {
    PendingIsNonNegative(s0);
    RunKeepsBalance(lim, s0, steps);
    PendingIsNonNegative(Exec(lim, s0, steps));
  }

  /** A call that nobody interrupts is one step if it fits and two if it does not, and does what TryAdd does. */
  lemma UninterruptedTryAdd(lim: Limits, s: State, i: nat, count: nat, relaxed: bool)
    requires i < |s.phases| && s.phases[i].Ready?
    ensures var fits := s.value + count <= if relaxed then lim.limit else lim.strictLimit;
            var steps := if fits then [Add(i, count, relaxed)] else [Add(i, count, relaxed), Undo(i)];
            && Legal(lim, s, steps)
            && Exec(lim, s, steps) == if fits then s.(value := s.value + count, granted := s.granted + count) else s
  {
    var add, undo := Add(i, count, relaxed), Undo(i);
    var s1 := Apply(lim, s, add);
    if Accepts(lim, s, count, relaxed) {
      assert [add][1..] == [] && Exec(lim, s1, []) == s1;
    } else {
      var s2 := Apply(lim, s1, undo);
      assert s2 == s by {
        assert s2.phases == s.phases;
      }
      assert [undo][1..] == [] && Exec(lim, s2, []) == s2;
      assert Legal(lim, s1, [undo]) && Exec(lim, s1, [undo]) == s2;
      assert [add, undo][1..] == [undo];
    }
  }

  /** Failed calls leave no residue: with no call half way, the counter is exactly the grants. */
  lemma NoResidueAtRest(lim: Limits, s0: State, steps: seq<Step>)
    requires lim.strictLimit <= lim.limit
    requires Init(s0) && Legal(lim, s0, steps)
    requires var s := Exec(lim, s0, steps); forall i :: 0 <= i < |s.phases| ==> s.phases[i].Ready?
    ensures Exec(lim, s0, steps).value == Exec(lim, s0, steps).granted
  {
    PendingIsNonNegative(s0);
    RunKeepsBalance(lim, s0, steps);
    PendingIsNonNegative(Exec(lim, s0, steps));
  }

  /** The price of adding first: a call that overshoots makes a concurrent call fail that fits, as long as the
      overshoot is not undone. */
  lemma OvershootCanRefuseACallThatFits()
    ensures var lim := Limits(10, 10);
            var s0 := State(0, 0, [Ready, Ready]);
            var steps := [Add(0, 11, true)];
            && Init(s0) && Legal(lim, s0, steps)
            && var s := Exec(lim, s0, steps);
               s.granted + 5 <= lim.limit && !Accepts(lim, s, 5, true)
  {
    var lim := Limits(10, 10);
    var s0 := State(0, 0, [Ready, Ready]);
    var steps := [Add(0, 11, true)];
    var s1 := Apply(lim, s0, steps[0]);
    assert steps[1..] == [];
    assert Legal(lim, s1, []) && Exec(lim, s1, []) == s1;
  }
}
