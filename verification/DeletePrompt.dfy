/**
 interactiveDeleteProcessor of cmd/syncProcessor.go: asks before deleting until it is told what to do with
 all the rest.  The user's answers and the fate of each deletion are arbitrary functions.
 */
module DeletePrompt {

  /** `Unrecognizable` is any other text. */
  datatype Answer = Yes | No | YesForAll | NoForAll | Unrecognizable

  datatype DeleteDestination = Never | Prompt | Always

  predicate ForAll(a: Answer) {
    a.YesForAll? || a.NoForAll?
  }

  /** The position of the first for-all answer among the first `n`, or `n`. */
  function FirstForAll(answers: nat -> Answer, n: nat): (p: nat)
    ensures p <= n && (p < n ==> ForAll(answers(p)))
    ensures forall k :: 0 <= k < p ==> !ForAll(answers(k))
  {
    if n == 0 then 0
    else
      var p := FirstForAll(answers, n - 1);
      if p < n - 1 || ForAll(answers(n - 1)) then p else n
  }

  /** How many of the first `n` objects are asked about. */
  function Asked(mode: DeleteDestination, answers: nat -> Answer, n: nat): (k: nat)
    ensures k <= n
  {
    if !mode.Prompt? then 0
    else if FirstForAll(answers, n) < n then FirstForAll(answers, n) + 1 else n
  }

  /** Whether the `k`-th object is to be deleted. */
  function Verdict(mode: DeleteDestination, answers: nat -> Answer, k: nat): bool {
    match mode
    case Never => false
    case Always => true
    case Prompt =>
      var p := FirstForAll(answers, k);
      if p < k then answers(p).YesForAll? else answers(k).Yes? || answers(k).YesForAll?
  }

  /** The objects to be deleted among the first `n`, in order. */
  function Condemned<T>(objects: seq<T>, n: nat, mode: DeleteDestination, answers: nat -> Answer): seq<T>
    requires n <= |objects|
  {
    if n == 0 then []
    else Condemned(objects, n - 1, mode, answers) + if Verdict(mode, answers, n - 1) then [objects[n - 1]] else []
  }

  /** One for-all answer settles everything after it, whatever the later answers would have been. */
  lemma ForAllAnswerSettlesTheRest(answers: nat -> Answer, p: nat, k: nat)
    requires answers(p).YesForAll? || answers(p).NoForAll?
    requires forall j :: 0 <= j < p ==> !answers(j).YesForAll? && !answers(j).NoForAll?
    ensures k > p ==> (Verdict(Prompt, answers, k) <==> answers(p).YesForAll?)
    ensures k <= p ==> (Verdict(Prompt, answers, k) <==> answers(k).Yes? || answers(k).YesForAll?)
    ensures Asked(Prompt, answers, k) == if k <= p then k else p + 1
  {
    var q := FirstForAll(answers, k);
    assert q < k ==> q == p;
    assert q == k ==> k <= p;
  }

  lemma AskedOneMore<T>(objects: seq<T>, n: nat, mode: DeleteDestination, answers: nat -> Answer)
    requires n < |objects|
    ensures Asked(mode, answers, n) <= n && Asked(mode, answers, n + 1) <= n + 1
    ensures objects[..Asked(mode, answers, n + 1)] ==
            objects[..Asked(mode, answers, n)]
            + if mode.Prompt? && FirstForAll(answers, n) == n then [objects[n]] else []
  {
  }

  /** After no-for-all nothing more is deleted, and after yes-for-all everything is. */
  lemma {:induction false} RestIsAllOrNothing<T>(objects: seq<T>, answers: nat -> Answer, p: nat, n: nat)
    requires p < n <= |objects| && (answers(p).YesForAll? || answers(p).NoForAll?)
    requires forall j :: 0 <= j < p ==> !answers(j).YesForAll? && !answers(j).NoForAll?
    ensures Condemned(objects, n, Prompt, answers) ==
            Condemned(objects, p + 1, Prompt, answers) + if answers(p).YesForAll? then objects[p + 1..n] else []
  {
    if n == p + 1 {
      assert objects[p + 1..n] == [];
    } else {
      RestIsAllOrNothing(objects, answers, p, n - 1);
      ForAllAnswerSettlesTheRest(answers, p, n - 1);
      RestStep(Condemned(objects, p + 1, Prompt, answers), objects, p + 1, n, answers(p).YesForAll?);
    }
  }

  /** Asked one by one, an object is condemned exactly if it was answered with yes before any for-all answer, or if
      the first for-all answer, up to its own, was yes. */
  lemma VerdictMeans(answers: nat -> Answer, k: nat)
    ensures Verdict(Prompt, answers, k) <==>
            || (answers(k).Yes? && forall j | 0 <= j < k :: !answers(j).YesForAll? && !answers(j).NoForAll?)
            || exists p | 0 <= p <= k :: answers(p).YesForAll?
                                         && forall j | 0 <= j < p :: !answers(j).YesForAll? && !answers(j).NoForAll?
  {
    var q := FirstForAll(answers, k);
    if p: nat :| p <= k && answers(p).YesForAll?
                 && forall j | 0 <= j < p :: !answers(j).YesForAll? && !answers(j).NoForAll?
    {
      assert q < k ==> p == q;
    }
    if q < k {
      assert answers(q).YesForAll? || answers(q).NoForAll?;
    }
  }

  /** The positions with that verdict, in order. */
  ghost predicate AreCondemned(chosen: seq<nat>, n: nat, mode: DeleteDestination, answers: nat -> Answer) {
    && (forall k, l :: 0 <= k < l < |chosen| ==> chosen[k] < chosen[l])
    && (forall i: nat :: i in chosen <==> i < n && Verdict(mode, answers, i))
  }

  lemma CondemnOneMore(chosen: seq<nat>, n: nat, mode: DeleteDestination, answers: nat -> Answer)
    requires AreCondemned(chosen, n, mode, answers)
    ensures AreCondemned(chosen + if Verdict(mode, answers, n) then [n] else [], n + 1, mode, answers)
    ensures forall k :: 0 <= k < |chosen| ==> chosen[k] < n
  {
    var last := if Verdict(mode, answers, n) then [n] else [];
    assert forall k :: 0 <= k < |chosen| ==> chosen[k] in chosen;
    forall i: nat ensures i in chosen + last <==> i < n + 1 && Verdict(mode, answers, i) {
      assert i in chosen + last <==> i in chosen || i in last;
    }
  }

  /** The condemned objects are those, each once and in order. */
  lemma {:induction false} CondemnedAre<T>(objects: seq<T>, n: nat, mode: DeleteDestination, answers: nat -> Answer)
    returns (chosen: seq<nat>)
    requires n <= |objects|
    ensures AreCondemned(chosen, n, mode, answers)
    ensures |Condemned(objects, n, mode, answers)| == |chosen|
    ensures forall k :: 0 <= k < |chosen| ==>
              chosen[k] < n && Condemned(objects, n, mode, answers)[k] == objects[chosen[k]]
  {
    if n == 0 {
      chosen := [];
    } else {
      var before := CondemnedAre(objects, n - 1, mode, answers);
      chosen := before + if Verdict(mode, answers, n - 1) then [n - 1] else [];
      CondemnOneMore(before, n - 1, mode, answers);
    }
  }

  lemma {:induction false} CondemnedWithoutQuestions<T>(objects: seq<T>, n: nat, answers: nat -> Answer)
    requires n <= |objects|
    ensures Condemned(objects, n, Always, answers) == objects[..n]
    ensures Condemned(objects, n, Never, answers) == []
  {
    if n == 0 {
    } else {
      CondemnedWithoutQuestions(objects, n - 1, answers);
      assert objects[..n] == objects[..n - 1] + [objects[n - 1]];
    }
  }

  lemma ByMode<T>(objects: seq<T>, answers: nat -> Answer)
    ensures Condemned(objects, |objects|, Always, answers) == objects == objects + [] == [] + objects
    ensures Condemned(objects, |objects|, Never, answers) == []
    ensures objects[..Asked(Always, answers, |objects|)] == objects[..Asked(Never, answers, |objects|)] == []
    ensures (forall k | 0 <= k < |objects| :: !answers(k).YesForAll? && !answers(k).NoForAll?) ==>
              objects[..Asked(Prompt, answers, |objects|)] == objects
  {
    CondemnedWithoutQuestions(objects, |objects|, answers);
  }

  lemma RestStep<T>(before: seq<T>, objects: seq<T>, i: nat, n: nat, all: bool)
    requires i < n <= |objects|
    ensures (before + if all then objects[i..n - 1] else []) + (if all then [objects[n - 1]] else [])
         == before + if all then objects[i..n] else []
  {
    if all {
      assert objects[i..n] == objects[i..n - 1] + [objects[n - 1]];
    }
  }

  class InteractiveDeleteProcessor<T> {
    const answers: nat -> Answer            // the answer to the k-th question
    const deletionFails: nat -> bool        // the fate of the k-th deletion
    const dryrunMode: bool
    var shouldPromptUser: bool
    var shouldDelete: bool
    var prompts: seq<T>                     // what the user was asked about
    var deletions: seq<T>                   // what the deleter was called with
    var errors: nat
    var dryruns: seq<T>                     // what a dry run reported
    var deletionCount: nat

    constructor (answers: nat -> Answer, deletionFails: nat -> bool, deleteDestination: DeleteDestination, dryrun: bool)
      ensures this.answers == answers && this.deletionFails == deletionFails && dryrunMode == dryrun
      ensures InStep(deleteDestination, [], 0)
    {
      this.answers := answers;
      this.deletionFails := deletionFails;
      this.dryrunMode := dryrun;
      shouldPromptUser := deleteDestination == Prompt;
      shouldDelete := deleteDestination == Always;
      prompts, deletions, errors, dryruns, deletionCount := [], [], 0, [], 0;
    }

    /** The state after the first `n` objects. */
    ghost predicate InStep(mode: DeleteDestination, objects: seq<T>, n: nat)
      requires n <= |objects|
      reads this
    {
      && var p := FirstForAll(answers, n); var condemned := Condemned(objects, n, mode, answers);
         && shouldPromptUser == (mode.Prompt? && p == n)
         && (!mode.Prompt? ==> shouldDelete == mode.Always?)
         && (mode.Prompt? && p < n ==> shouldDelete == answers(p).YesForAll?)
         && prompts == objects[..Asked(mode, answers, n)]
         && deletions == (if dryrunMode then [] else condemned)
         && dryruns == (if dryrunMode then condemned else [])
         && deletionCount == |deletions|
    }

    method PromptForConfirmation(storedObject: T) returns (delete: bool, keepPrompting: bool)
      modifies this`prompts
      ensures prompts == old(prompts) + [storedObject]
      ensures var a := answers(|old(prompts)|);
              && delete == (a.Yes? || a.YesForAll?)
              && keepPrompting == !(a.YesForAll? || a.NoForAll?)
    {
      var answer := answers(|prompts|);
      prompts := prompts + [storedObject];
      match answer
      case Yes => return true, true;
      case YesForAll => return true, false;
      case No => return false, true;
      case NoForAll => return false, false;
      case Unrecognizable => return false, true;
    }

    /** A deletion that fails is counted like one that succeeds, and stops nothing. */
    method RemoveImmediately(storedObject: T)
      modifies this
      ensures var a := answers(|old(prompts)|);
              var delete := if old(shouldPromptUser) then a.Yes? || a.YesForAll? else old(shouldDelete);
              && shouldDelete == delete
              && shouldPromptUser == (old(shouldPromptUser) && !(a.YesForAll? || a.NoForAll?))
              && prompts == old(prompts) + (if old(shouldPromptUser) then [storedObject] else [])
              && deletions == old(deletions) + (if delete && !dryrunMode then [storedObject] else [])
              && dryruns == old(dryruns) + (if delete && dryrunMode then [storedObject] else [])
              && deletionCount - |deletions| == old(deletionCount) - |old(deletions)|
              && errors == old(errors) + if delete && !dryrunMode && deletionFails(|old(deletions)|) then 1 else 0
    {
      if shouldPromptUser {
        shouldDelete, shouldPromptUser := PromptForConfirmation(storedObject);
      }
      if !shouldDelete {
        return;
      }
      if dryrunMode {
        dryruns := dryruns + [storedObject];
        return;
      }
      var failed := deletionFails(|deletions|);
      deletions := deletions + [storedObject];
      if failed {
        errors := errors + 1;
      }
      deletionCount := deletionCount + 1;
    }

    method RemoveNext(objects: seq<T>, n: nat, ghost mode: DeleteDestination)
      requires n < |objects| && InStep(mode, objects, n)
      modifies this
      ensures InStep(mode, objects, n + 1)
    {
      AskedOneMore(objects, n, mode, answers);
      RemoveImmediately(objects[n]);
    }

    /** A whole traversal: it asks about every object until the first for-all answer and never after, the
        deleter is called for exactly the condemned objects, in order, and the counter counts its calls; a dry
        run calls it for none. */
    method RemoveAll(objects: seq<T>, ghost mode: DeleteDestination)
      requires InStep(mode, [], 0)
      modifies this
      ensures prompts == objects[..Asked(mode, answers, |objects|)]
      ensures deletions == (if dryrunMode then [] else Condemned(objects, |objects|, mode, answers))
      ensures dryruns == (if dryrunMode then Condemned(objects, |objects|, mode, answers) else [])
      ensures deletionCount == |deletions|
      ensures mode.Never? ==> prompts == deletions == dryruns == []
      ensures mode.Always? ==> prompts == [] && deletions + dryruns == objects
      ensures mode.Prompt? && (forall k | 0 <= k < |objects| :: !answers(k).YesForAll? && !answers(k).NoForAll?) ==>
                prompts == objects
    {
      for n := 0 to |objects|
        invariant InStep(mode, objects, n)
      {
        RemoveNext(objects, n, mode);
      }
      ByMode(objects, answers);
    }
  }
}
