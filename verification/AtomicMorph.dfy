/**
 The compare-and-swap loops of common/atomicmorph.go.  The four functions differ in the integer type only, so
 the target's type is a parameter here.  A morpher is a pure function of the value it is given.
 */
module AtomicMorph {
  import opened Basics

  /** A morpher: the value to store and the result to hand to the caller. */
  type Morpher<!T, !R> = T -> (T, R)

  // ---------- one call among others ----------

  class Cell<T(==)> {
    var value: T

    constructor (value: T)
      ensures this.value == value
    {
      this.value := value;
    }

    method CompareAndSwap(expected: T, desired: T) returns (swapped: bool)
      modifies this
      ensures swapped <==> old(value) == expected
      ensures value == if swapped then desired else old(value)
    {
      swapped := value == expected;
      if swapped {
        value := desired;
      }
    }
  }

  /** The value just before the swap of round `k`, if other goroutines store `others[j]` between the load and the
      swap of round `j`. */
  function Seen<T>(start: T, others: seq<Option<T>>, k: nat): T
    requires k <= |others|
  {
    if k == 0 then start else if others[k - 1].Some? then others[k - 1].value else Seen(start, others, k - 1)
  }

  /** Nobody else comes in between for ever: the loop ends in the first round in which the value found by the
      swap is the one that was loaded, and there the value is morphed once. */
  method AtomicMorphValue<T(==), R>(target: Cell<T>, morpher: Morpher<T, R>, others: seq<Option<T>>)
    returns (r: R, ghost rounds: nat)
    modifies target
    ensures rounds <= |others|
    ensures var v := Seen(old(target.value), others, rounds);
            && target.value == morpher(v).0 && r == morpher(v).1
            && (rounds < |others| ==> others[rounds].None? || others[rounds].value == v)
    ensures forall k :: 0 <= k < rounds ==>
              others[k].Some? && others[k].value != Seen(old(target.value), others, k)
  {
    rounds := 0;
    ghost var start := target.value;
    var rest := others;
    while true
      invariant rounds <= |others| && rest == others[rounds..]
      invariant target.value == Seen(start, others, rounds)
      invariant forall k :: 0 <= k < rounds ==> others[k].Some? && others[k].value != Seen(start, others, k)
      decreases |rest|
    {
      var currentVal := target.value;
      var (desiredVal, morphResult) := morpher(currentVal);
      if rest != [] {
        if rest[0].Some? {
          target.value := rest[0].value;
        }
        rest := rest[1..];
      }
      var swapped := target.CompareAndSwap(currentVal, desiredVal);
      if swapped {
        return morphResult, rounds;
      }
      rounds := rounds + 1;
    }
  }

  // ---------- every interleaving of concurrent calls ----------

  /** Where a goroutine stands in its call.  `at` is a history variable: how many morphs there had been when it
      loaded the value. */
  datatype Phase<!T, !R> =
    | Idle
    | Called(morpher: Morpher<T, R>)
    | Loaded(morpher: Morpher<T, R>, currentVal: T, at: nat)
    | Returning(morphResult: R)

  datatype Commit<!T, !R> = Commit(who: nat, morpher: Morpher<T, R>, morphResult: R)

  datatype Began<!T, !R> = Began(who: nat, morpher: Morpher<T, R>)

  /** `calls`, `commits` and `returned` are history variables. */
  datatype State<!T, !R> = State(
    value: T, phases: seq<Phase<T, R>>, calls: seq<Began<T, R>>, commits: seq<Commit<T, R>>,
    returned: seq<(nat, R)>)

  datatype Step<!T, !R> =
    | Call(i: nat, morpher: Morpher<T, R>)
    | Load(i: nat)
    | Swap(i: nat)
    | Return(i: nat)

  predicate Init<T, R>(s: State<T, R>) {
    && (forall i :: 0 <= i < |s.phases| ==> s.phases[i].Idle?)
    && |s.calls| == 0 && |s.commits| == 0 && |s.returned| == 0
  }

  predicate Enabled<T, R>(s: State<T, R>, step: Step<T, R>) {
    && step.i < |s.phases|
    && match step
       case Call(i, _) => s.phases[i].Idle?
       case Load(i) => s.phases[i].Called?
       case Swap(i) => s.phases[i].Loaded?
       case Return(i) => s.phases[i].Returning?
  }

  /** A swap that fails goes back to the load. */
  function Apply<T(==), R>(s: State<T, R>, step: Step<T, R>): State<T, R>
    requires Enabled(s, step)
  {
    match step
    case Call(i, morpher) => s.(phases := s.phases[i := Called(morpher)], calls := s.calls + [Began(i, morpher)])
    case Load(i) => s.(phases := s.phases[i := Loaded(s.phases[i].morpher, s.value, |s.commits|)])
    case Swap(i) =>
      var p := s.phases[i];
      var (desiredVal, morphResult) := p.morpher(p.currentVal);
      if s.value == p.currentVal then
        s.(value := desiredVal, phases := s.phases[i := Returning(morphResult)],
           commits := s.commits + [Commit(i, p.morpher, morphResult)])
      else s.(phases := s.phases[i := Called(p.morpher)])
    case Return(i) =>
      s.(phases := s.phases[i := Idle], returned := s.returned + [(i, s.phases[i].morphResult)])
  }

  predicate Legal<T(==), R>(s: State<T, R>, steps: seq<Step<T, R>>)
    decreases |steps|
  {
    |steps| == 0 || (Enabled(s, steps[0]) && Legal(Apply(s, steps[0]), steps[1..]))
  }

  function Exec<T(==), R>(s: State<T, R>, steps: seq<Step<T, R>>): State<T, R>
    requires Legal(s, steps)
    decreases |steps|
  {
    if |steps| == 0 then s else Exec(Apply(s, steps[0]), steps[1..])
  }

  /** The morphs applied one after the other, as if nobody ran at the same time. */
  function Fold<T, R>(start: T, commits: seq<Commit<T, R>>): T {
    if |commits| == 0 then start
    else commits[|commits| - 1].morpher(Fold(start, commits[..|commits| - 1])).0
  }

  /** What a goroutine was told, in order: once for each of its commits. */
  function Results<T, R>(commits: seq<Commit<T, R>>, i: nat): seq<R> {
    if |commits| == 0 then []
    else
      var last := commits[|commits| - 1];
      Results(commits[..|commits| - 1], i) + if last.who == i then [last.morphResult] else []
  }

  function Returned<R>(returned: seq<(nat, R)>, i: nat): seq<R> {
    if |returned| == 0 then []
    else
      var last := returned[|returned| - 1];
      Returned(returned[..|returned| - 1], i) + if last.0 == i then [last.1] else []
  }

  /** The morphers a goroutine called with, in order, and those of its commits. */
  function CallsOf<T, R>(calls: seq<Began<T, R>>, i: nat): seq<Morpher<T, R>> {
    if |calls| == 0 then []
    else
      var last := calls[|calls| - 1];
      CallsOf(calls[..|calls| - 1], i) + if last.who == i then [last.morpher] else []
  }

  function MorphersOf<T, R>(commits: seq<Commit<T, R>>, i: nat): seq<Morpher<T, R>> {
    if |commits| == 0 then []
    else
      var last := commits[|commits| - 1];
      MorphersOf(commits[..|commits| - 1], i) + if last.who == i then [last.morpher] else []
  }

  /** The call under way that has not been committed. */
  function Uncommitted<T, R>(p: Phase<T, R>): seq<Morpher<T, R>> {
    if p.Called? || p.Loaded? then [p.morpher] else []
  }

  ghost predicate CallsAreRight<T, R>(s: State<T, R>, i: nat)
    requires i < |s.phases|
  {
    CallsOf(s.calls, i) == MorphersOf(s.commits, i) + Uncommitted(s.phases[i])
  }

  function Owed<T, R>(p: Phase<T, R>): seq<R> {
    if p.Returning? then [p.morphResult] else []
  }

  ghost predicate CommitIsRight<T, R>(start: T, commits: seq<Commit<T, R>>, k: nat)
    requires k < |commits|
  {
    commits[k].morphResult == commits[k].morpher(Fold(start, commits[..k])).1
  }

  ghost predicate PhaseIsRight<T, R>(start: T, s: State<T, R>, i: nat)
    requires i < |s.phases|
  {
    var p := s.phases[i];
    && (p.Loaded? ==> p.at <= |s.commits| && p.currentVal == Fold(start, s.commits[..p.at]))
    && Results(s.commits, i) == Returned(s.returned, i) + Owed(p)
  }

  ghost predicate Inv<T, R>(start: T, s: State<T, R>) {
    && s.value == Fold(start, s.commits)
    && (forall k :: 0 <= k < |s.commits| ==> CommitIsRight(start, s.commits, k))
    && (forall i :: 0 <= i < |s.phases| ==> PhaseIsRight(start, s, i))
    && (forall i :: 0 <= i < |s.phases| ==> CallsAreRight(s, i))
  }

  lemma CommitOneMore<T, R>(start: T, commits: seq<Commit<T, R>>, c: Commit<T, R>, j: nat)
    requires c.morphResult == c.morpher(Fold(start, commits)).1
    requires forall k :: 0 <= k < |commits| ==> CommitIsRight(start, commits, k)
    ensures Fold(start, commits + [c]) == c.morpher(Fold(start, commits)).0
    ensures forall k :: 0 <= k <= |commits| ==> CommitIsRight(start, commits + [c], k)
    ensures Results(commits + [c], j) == Results(commits, j) + if c.who == j then [c.morphResult] else []
  {
    var more := commits + [c];
    assert more[..|commits|] == commits;
    forall k | 0 <= k <= |commits| ensures CommitIsRight(start, more, k) {
      if k < |commits| {
        assert CommitIsRight(start, commits, k);
        assert more[..k] == commits[..k];
      }
    }
  }

  lemma CallOneMore<T, R>(calls: seq<Began<T, R>>, c: Began<T, R>, j: nat)
    ensures CallsOf(calls + [c], j) == CallsOf(calls, j) + if c.who == j then [c.morpher] else []
  {
    assert (calls + [c])[..|calls|] == calls;
  }

  lemma MorphOneMore<T, R>(commits: seq<Commit<T, R>>, c: Commit<T, R>, j: nat)
    ensures MorphersOf(commits + [c], j) == MorphersOf(commits, j) + if c.who == j then [c.morpher] else []
  {
    assert (commits + [c])[..|commits|] == commits;
  }

  lemma StepKeepsCalls<T, R>(s: State<T, R>, step: Step<T, R>, j: nat)
    requires Enabled(s, step) && j < |s.phases| && CallsAreRight(s, j)
    ensures CallsAreRight(Apply(s, step), j)
  {
    var s' := Apply(s, step);
    if step.Call? {
      CallOneMore(s.calls, s'.calls[|s.calls|], j);
      assert MorphersOf(s.commits, j) + [] == MorphersOf(s.commits, j);
    } else if step.Swap? && s.value == s.phases[step.i].currentVal {
      MorphOneMore(s.commits, s'.commits[|s.commits|], j);
      assert MorphersOf(s'.commits, j) + [] == MorphersOf(s'.commits, j);
    }
  }

  lemma ReturnOneMore<R>(returned: seq<(nat, R)>, r: (nat, R), j: nat)
    ensures Returned(returned + [r], j) == Returned(returned, j) + if r.0 == j then [r.1] else []
  {
    assert (returned + [r])[..|returned|] == returned;
  }

  lemma SwapKeepsPhase<T, R>(start: T, s: State<T, R>, i: nat, j: nat)
    requires Inv(start, s) && Enabled(s, Swap(i)) && s.value == s.phases[i].currentVal && j < |s.phases|
    ensures PhaseIsRight(start, Apply(s, Swap(i)), j)
  {
    var s' := Apply(s, Swap(i));
    var c := s'.commits[|s.commits|];
    assert PhaseIsRight(start, s, j);
    CommitOneMore(start, s.commits, c, j);
    if i == j {
      assert Returned(s.returned, j) + [] == Returned(s.returned, j);
    } else if s.phases[j].Loaded? {
      assert s'.commits[..s.phases[j].at] == s.commits[..s.phases[j].at];
    }
  }

  lemma ReturnKeepsPhase<T, R>(start: T, s: State<T, R>, i: nat, j: nat)
    requires Inv(start, s) && Enabled(s, Return(i)) && j < |s.phases|
    ensures PhaseIsRight(start, Apply(s, Return(i)), j)
  {
    var s' := Apply(s, Return(i));
    assert PhaseIsRight(start, s, j);
    ReturnOneMore(s.returned, s'.returned[|s.returned|], j);
    if i == j {
      assert Returned(s'.returned, j) + [] == Returned(s'.returned, j);
    }
  }

  lemma StepKeepsPhase<T, R>(start: T, s: State<T, R>, step: Step<T, R>, j: nat)
    requires Inv(start, s) && Enabled(s, step) && j < |s.phases|
    ensures PhaseIsRight(start, Apply(s, step), j)
  {
    if step.Swap? && s.value == s.phases[step.i].currentVal {
      SwapKeepsPhase(start, s, step.i, j);
    } else if step.Return? {
      ReturnKeepsPhase(start, s, step.i, j);
    } else {
      assert PhaseIsRight(start, s, j);
      assert s.commits[..|s.commits|] == s.commits;
    }
  }

  lemma StepKeepsInv<T, R>(start: T, s: State<T, R>, step: Step<T, R>)
    requires Inv(start, s) && Enabled(s, step)
    ensures Inv(start, Apply(s, step))
  {
    var s' := Apply(s, step);
    if step.Swap? && s.value == s.phases[step.i].currentVal {
      CommitOneMore(start, s.commits, s'.commits[|s.commits|], 0);
    }
    forall j | 0 <= j < |s'.phases| ensures PhaseIsRight(start, s', j) {
      StepKeepsPhase(start, s, step, j);
    }
    forall j | 0 <= j < |s'.phases| ensures CallsAreRight(s', j) {
      StepKeepsCalls(s, step, j);
    }
  }

  lemma {:induction false} RunKeepsInv<T, R>(start: T, s: State<T, R>, steps: seq<Step<T, R>>)
    requires Inv(start, s) && Legal(s, steps)
    ensures Inv(start, Exec(s, steps))
    decreases |steps|
  {
    if |steps| > 0 {
      StepKeepsInv(start, s, steps[0]);
      RunKeepsInv(start, Apply(s, steps[0]), steps[1..]);
    }
  }

  /** Whatever the interleaving, the value is the initial one morphed by the committed calls in the order of
      their commits; each commit's result was computed from the value it replaced; every call is committed exactly
      once, with its own morpher and in the order of the goroutine's calls, but for one that is not that far; and
      the results a goroutine got back are its commits' results, one for one, but for a call that is about to
      return. */
  lemma MorphsAreSerializable<T, R>(s0: State<T, R>, steps: seq<Step<T, R>>)
    requires Init(s0) && Legal(s0, steps)
    ensures var s := Exec(s0, steps);
            && s.value == Fold(s0.value, s.commits)
            && (forall k :: 0 <= k < |s.commits| ==> CommitIsRight(s0.value, s.commits, k))
            && (forall i :: 0 <= i < |s.phases| ==>
                  Results(s.commits, i) == Returned(s.returned, i) + Owed(s.phases[i]))
            && (forall i :: 0 <= i < |s.phases| ==>
                  CallsOf(s.calls, i) == MorphersOf(s.commits, i) + Uncommitted(s.phases[i]))
  {
    RunKeepsInv(s0.value, s0, steps);
    var s := Exec(s0, steps);
    forall i | 0 <= i < |s.phases| ensures Results(s.commits, i) == Returned(s.returned, i) + Owed(s.phases[i]) {
      assert PhaseIsRight(s0.value, s, i);
    }
    forall i | 0 <= i < |s.phases|
      ensures CallsOf(s.calls, i) == MorphersOf(s.commits, i) + Uncommitted(s.phases[i])
    {
      assert CallsAreRight(s, i);
    }
  }

  lemma ExecCons<T, R>(s: State<T, R>, a: Step<T, R>, rest: seq<Step<T, R>>)
    requires Enabled(s, a) && Legal(Apply(s, a), rest)
    ensures Legal(s, [a] + rest) && Exec(s, [a] + rest) == Exec(Apply(s, a), rest)
  {
    assert ([a] + rest)[1..] == rest;
  }

  /** A call that nobody interrupts does what AtomicMorphValue does in its first round. */
  lemma UninterruptedCall<T, R>(s: State<T, R>, i: nat, morpher: Morpher<T, R>)
    requires i < |s.phases| && s.phases[i].Idle?
    ensures var steps := [Call(i, morpher)] + ([Load(i)] + ([Swap(i)] + ([Return(i)] + [])));
            && Legal(s, steps)
            && var s' := Exec(s, steps);
               && s'.value == morpher(s.value).0 && s'.returned == s.returned + [(i, morpher(s.value).1)]
               && s'.phases == s.phases
  {
    var s1 := Apply(s, Call(i, morpher));
    var s2 := Apply(s1, Load(i));
    var s3 := Apply(s2, Swap(i));
    ExecCons(s3, Return(i), []);
    ExecCons(s2, Swap(i), [Return(i)] + []);
    ExecCons(s1, Load(i), [Swap(i)] + ([Return(i)] + []));
    ExecCons(s, Call(i, morpher), [Load(i)] + ([Swap(i)] + ([Return(i)] + [])));
    assert Apply(s3, Return(i)).phases == s.phases;
  }

  /** A swap fails only if another call was committed since the load: somebody always gets on. */
  lemma FailureMeansSomebodyElseCommitted<T, R>(s0: State<T, R>, steps: seq<Step<T, R>>, i: nat)
    requires Init(s0) && Legal(s0, steps)
    requires var s := Exec(s0, steps); i < |s.phases| && s.phases[i].Loaded? && s.value != s.phases[i].currentVal
    ensures Exec(s0, steps).phases[i].at < |Exec(s0, steps).commits|
  {
    RunKeepsInv(s0.value, s0, steps);
    var s := Exec(s0, steps);
    assert PhaseIsRight(s0.value, s, i);
    assert s.commits[..|s.commits|] == s.commits;
  }
}
