/** cmd/copyEnumeratorHelper.go: the same batching, with every part shuffled before it is sent. */
module ShuffledJobParts {
  import opened Basics
  import opened JobParts

  /** What the helpers change in the command's arguments. */
  class CookedCopyCmdArgs {
    const dryrunMode: bool
    var waits: nat                      // calls of waitUntilJobCompletion
    var isEnumerationComplete: bool

    constructor (dryrunMode: bool)
      ensures this.dryrunMode == dryrunMode && waits == 0 && !isEnumerationComplete
    {
      this.dryrunMode := dryrunMode;
      waits, isEnumerationComplete := 0, false;
    }
  }

  /** Exchanges two elements. */
  method Swap(transfers: array<CopyTransfer>, i: nat, j: nat)
    requires i < transfers.Length && j < transfers.Length
    modifies transfers
    ensures multiset(transfers[..]) == multiset(old(transfers[..]))
  {
    transfers[i], transfers[j] := transfers[j], transfers[i];
  }

  /** rand.Shuffle of Go's library, for any source of random numbers. */
  method ShuffleTransfers(transfers: array<CopyTransfer>, random: nat -> nat)
    modifies transfers
    ensures multiset(transfers[..]) == multiset(old(transfers[..]))
  {
    var i := transfers.Length;
    while i > 1
      invariant 0 <= i <= transfers.Length
      invariant multiset(transfers[..]) == multiset(old(transfers[..]))
    {
      i := i - 1;
      Swap(transfers, i, random(i) % (i + 1));
    }
  }

  method ShuffleList(e: CopyJobPartOrderRequest, random: nat -> nat)
    modifies e`transfers
    ensures e.transfers == old(e.transfers).(list := e.transfers.list)
    ensures multiset(e.transfers.list) == multiset(old(e.transfers.list))
  {
    var list := e.transfers.list;
    var a := new CopyTransfer[|list|](i requires 0 <= i < |list| => list[i]);
    assert a[..] == list;
    ShuffleTransfers(a, random);
    e.transfers := e.transfers.(list := a[..]);
  }

  /** `sent` is `right` but for the order of its list. */
  predicate Shuffled(sent: PartOrder, right: PartOrder) {
    && sent == right.(transfers := right.transfers.(list := sent.transfers.list))
    && multiset(sent.transfers.list) == multiset(right.transfers.list)
  }

  predicate AllShuffled(sent: seq<PartOrder>, right: seq<PartOrder>) {
    |sent| == |right| && forall k :: 0 <= k < |sent| ==> Shuffled(sent[k], right[k])
  }

  /** The counters, taken before the shuffle, belong to what is sent, and over all parts nothing is lost. */
  lemma ShuffledOrdersConserveTransfers(sent: seq<PartOrder>, list: seq<CopyTransfer>, n: nat)
    requires n > 0 && AllShuffled(sent, Orders(list, n))
    ensures forall k :: 0 <= k < |sent| ==> sent[k].transfers == Tallied(sent[k].transfers.list)
    ensures forall k :: 0 <= k < |sent| ==> |sent[k].transfers.list| == |PartsOf(list, n)[k]|
    ensures multiset(Concat(ListsOf(sent))) == multiset(list)
  {
    forall k | 0 <= k < |sent|
      ensures sent[k].transfers == Tallied(sent[k].transfers.list)
      ensures |sent[k].transfers.list| == |PartsOf(list, n)[k]|
    {
      var a, b := sent[k].transfers.list, PartsOf(list, n)[k];
      assert |multiset(a)| == |multiset(b)|;
      TalliedCounts(a);
      TalliedCounts(b);
      MeasureOfPermutation(a, b, Bytes);
      forall e: EntityType ensures Measure(a, OfType(e)) == Measure(b, OfType(e)) {
        MeasureOfPermutation(a, b, OfType(e));
      }
    }
    ConcatOfPermutations(ListsOf(sent), PartsOf(list, n));
    PartsConserveTheList(list, n);
  }

  lemma {:induction false} ConcatOfPermutations<T>(a: seq<seq<T>>, b: seq<seq<T>>)
    requires |a| == |b| && forall k :: 0 <= k < |a| ==> multiset(a[k]) == multiset(b[k])
    ensures multiset(Concat(a)) == multiset(Concat(b))
  {
    if a == [] {
    } else {
      ConcatOfPermutations(a[1..], b[1..]);
      assert multiset(Concat(a)) == multiset(a[0]) + multiset(Concat(a[1..]));
      assert multiset(Concat(b)) == multiset(b[0]) + multiset(Concat(b[1..]));
    }
  }

  /** Here a full part must have started the job.  Every part has random numbers of its own. */
  method AddTransfer(n: nat, e: CopyJobPartOrderRequest, transfer: CopyTransfer, cca: CookedCopyCmdArgs, engine: Engine,
                     random: (nat, nat) -> nat)
    returns (err: Outcome)
    modifies e, cca`waits, engine
    ensures var pending, answer := old(e.Value()), engine.answer(|old(engine.log)|);
            var sends := Full(pending, n);
            && |engine.log| == |old(engine.log)| + (if sends then 1 else 0) && old(engine.log) <= engine.log
            && (sends ==> Shuffled(engine.log[|old(engine.log)|], pending))
            && cca.waits == old(cca.waits) + (if sends && answer.jobStarted && pending.partNum == 0 then 1 else 0)
            && err == (if sends && !answer.jobStarted then PartRefused(pending.partNum, answer.errorMsg) else Done)
            && (err.Done? ==> e.Value() == Refilled(pending, n, transfer))
  {
    if |e.transfers.list| == n {
      var part := e.partNum;
      ShuffleList(e, draw => random(part, draw));
      var resp := engine.ExecuteNewCopyJobPartOrder(e.Value());
      if !resp.jobStarted {
        return PartRefused(e.partNum, resp.errorMsg);
      }
      if e.partNum == 0 {
        cca.waits := cca.waits + 1;
      }
      e.transfers := NO_TRANSFERS;
      e.partNum := e.partNum + 1;
    }
    e.transfers := e.transfers.Append(transfer);
    return Done;
  }

  /** In a dry run it does not matter that no job starts. */
  method DispatchFinalPart(e: CopyJobPartOrderRequest, cca: CookedCopyCmdArgs, engine: Engine,
                           random: (nat, nat) -> nat)
    returns (err: Outcome)
    modifies e, cca, engine
    ensures |engine.log| == |old(engine.log)| + 1 && old(engine.log) <= engine.log
    ensures Shuffled(engine.log[|old(engine.log)|], old(e.Value()).(isFinalPart := true))
    ensures var answer, num := engine.answer(|old(engine.log)|), old(e.partNum);
            && err == (if answer.jobStarted || cca.dryrunMode then Done
                       else if answer.errorMsg == NO_TRANSFERS_SCHEDULED then NothingScheduled
                       else PartRefused(num, answer.errorMsg))
            && cca.waits == old(cca.waits) + (if answer.jobStarted && num == 0 then 1 else 0)
            && cca.isEnumerationComplete == (answer.jobStarted || old(cca.isEnumerationComplete))
  {
    var part := e.partNum;
    ShuffleList(e, draw => random(part, draw));
    e.isFinalPart := true;
    var resp := engine.ExecuteNewCopyJobPartOrder(e.Value());
    if !resp.jobStarted {
      if cca.dryrunMode {
        return Done;
      }
      if resp.errorMsg == NO_TRANSFERS_SCHEDULED {
        return NothingScheduled;
      }
      return PartRefused(e.partNum, resp.errorMsg);
    }
    cca.isEnumerationComplete := true;
    if e.partNum == 0 {
      cca.waits := cca.waits + 1;
    }
    return Done;
  }

  lemma AllShuffledStep(sent: seq<PartOrder>, right: seq<PartOrder>, sent': seq<PartOrder>, pending: PartOrder)
    requires AllShuffled(sent, right) && sent <= sent' && |sent'| == |sent| + 1 && Shuffled(sent'[|sent|], pending)
    ensures AllShuffled(sent', right + [pending])
  {
  }

  lemma AllShuffledPrefix(sent: seq<PartOrder>, right: seq<PartOrder>, orders: seq<PartOrder>)
    requires AllShuffled(sent, right) && right <= orders
    ensures |sent| <= |orders| && AllShuffled(sent, orders[..|sent|])
  {
    assert right == orders[..|sent|];
  }

  /** The state a run without refusals is in after `b`. */
  ghost predicate InStep(b: Batch, e: CopyJobPartOrderRequest, cca: CookedCopyCmdArgs, engine: Engine)
    reads e, cca, engine
  {
    && AllShuffled(engine.log, b.sent) && e.Value() == b.pending && b.pending.partNum == |b.sent|
    && cca.waits == (if b.sent == [] then 0 else 1) && !cca.isEnumerationComplete
    && (forall k :: 0 <= k < |b.sent| ==> engine.answer(k).jobStarted)
  }

  /** The enumeration, up to the item whose coming has a full part sent that does not start the job. */
  method AddAll(n: nat, e: CopyJobPartOrderRequest, items: seq<Item>, cca: CookedCopyCmdArgs, engine: Engine,
                random: (nat, nat) -> nat)
    returns (err: Outcome, ghost reached: nat)
    requires InStep(After([], n, cca.dryrunMode), e, cca, engine)
    modifies e, cca`waits, engine
    ensures err.Done? ==> InStep(After(items, n, cca.dryrunMode), e, cca, engine)
    ensures !err.Done? ==>
              && reached < |items| && Accepts(items[reached], cca.dryrunMode)
              && var b := After(items[..reached], n, cca.dryrunMode);
                 var answer := engine.answer(|b.sent|);
                 && Full(b.pending, n) && err == PartRefused(|b.sent|, answer.errorMsg) && !answer.jobStarted
                 && AllShuffled(engine.log, b.sent + [b.pending])
                 && cca.waits == (if engine.answer(0).jobStarted then 1 else 0)
  {
    reached := 0;
    AfterAll(items, n, cca.dryrunMode);
    for i := 0 to |items|
      invariant InStep(After(items[..i], n, cca.dryrunMode), e, cca, engine)
    {
      AfterOneMore(items, i, n, cca.dryrunMode);
      reached := i;
      if Accepts(items[i], cca.dryrunMode) {
        ghost var b, log := After(items[..i], n, cca.dryrunMode), engine.log;
        err := AddTransfer(n, e, items[i].transfer, cca, engine, random);
        if Full(b.pending, n) {
          AllShuffledStep(log, b.sent, engine.log, b.pending);
        }
        if !err.Done? {
          return;
        }
      }
    }
    err := Done;
  }

  /** A whole enumeration and its end.  What reaches the engine is, part by part and up to the order inside a
      part, the beginning of the sequence the other processor sends.  The wait for the job begins exactly once
      if part 0 started the job, and otherwise never. */
  method SendAll(n: nat, e: CopyJobPartOrderRequest, items: seq<Item>, cca: CookedCopyCmdArgs, engine: Engine,
                 random: (nat, nat) -> nat)
    returns (err: Outcome)
    requires n > 0 && InStep(After([], n, cca.dryrunMode), e, cca, engine)
    modifies e, cca, engine
    ensures var orders := Orders(Accepted(items, cca.dryrunMode), n); var last := |orders| - 1;
            && |engine.log| <= |orders| && AllShuffled(engine.log, orders[..|engine.log|])
            && cca.waits == (if engine.answer(0).jobStarted then 1 else 0)
            && (err.Done? <==> && (forall k :: 0 <= k < last ==> engine.answer(k).jobStarted)
                               && (engine.answer(last).jobStarted || cca.dryrunMode))
            && (err.Done? ==> |engine.log| == |orders|)
            && (cca.isEnumerationComplete <==> |engine.log| == |orders| && engine.answer(last).jobStarted)
            && (err.PartRefused? ==> |engine.log| == err.partNum + 1)
  {
    ghost var reached;
    err, reached := AddAll(n, e, items, cca, engine, random);
    if err.Done? {
      ghost var b, log := After(items, n, cca.dryrunMode), engine.log;
      AfterCompletes(items, n, cca.dryrunMode);
      err := DispatchFinalPart(e, cca, engine, random);
      AllShuffledStep(log, b.sent, engine.log, b.pending.(isFinalPart := true));
      ghost var orders := Orders(Accepted(items, cca.dryrunMode), n);
      AllShuffledPrefix(engine.log, orders, orders);
    } else {
      FullPartIsRight(items, reached, n, cca.dryrunMode);
      ghost var b := After(items[..reached], n, cca.dryrunMode);
      AllShuffledPrefix(engine.log, b.sent + [b.pending], Orders(Accepted(items, cca.dryrunMode), n));
    }
  }

  /** And what that means for the items: a run that succeeds sends the transfers of exactly the items that are to be
      sent, in some order; a dry run sends none. */
  method Run(n: nat, e: CopyJobPartOrderRequest, items: seq<Item>, cca: CookedCopyCmdArgs, engine: Engine,
             random: (nat, nat) -> nat)
    returns (err: Outcome, ghost chosen: seq<nat>)
    requires n > 0 && InStep(After([], n, cca.dryrunMode), e, cca, engine)
    modifies e, cca, engine
    ensures var orders := Orders(Accepted(items, cca.dryrunMode), n); var last := |orders| - 1;
            && |engine.log| <= |orders| && AllShuffled(engine.log, orders[..|engine.log|])
            && cca.waits == (if engine.answer(0).jobStarted then 1 else 0)
            && (err.Done? <==> && (forall k :: 0 <= k < last ==> engine.answer(k).jobStarted)
                               && (engine.answer(last).jobStarted || cca.dryrunMode))
            && (err.Done? ==> |engine.log| == |orders|)
            && (cca.isEnumerationComplete <==> |engine.log| == |orders| && engine.answer(last).jobStarted)
            && (err.PartRefused? ==> |engine.log| == err.partNum + 1)
    ensures cca.dryrunMode ==> forall k :: 0 <= k < |engine.log| ==> engine.log[k].transfers.list == []
    ensures AreChosen(items, chosen)
    ensures !cca.dryrunMode && err.Done? ==>
              multiset(Concat(ListsOf(engine.log))) == multiset(TransfersAt(items, chosen))
  {
    err := SendAll(n, e, items, cca, engine, random);
    chosen := WhatWasShuffled(items, n, cca.dryrunMode, engine.log);
  }

  lemma WhatWasShuffled(items: seq<Item>, n: nat, dryrunMode: bool, log: seq<PartOrder>) returns (chosen: seq<nat>)
    requires n > 0
    requires var orders := Orders(Accepted(items, dryrunMode), n);
             |log| <= |orders| && AllShuffled(log, orders[..|log|])
    ensures dryrunMode ==> forall k :: 0 <= k < |log| ==> log[k].transfers.list == []
    ensures AreChosen(items, chosen)
    ensures !dryrunMode && |log| == |Orders(Accepted(items, dryrunMode), n)| ==>
              multiset(Concat(ListsOf(log))) == multiset(TransfersAt(items, chosen))
  {
    chosen := AcceptedAreTheChosen(items);
    if dryrunMode {
      EmptyOrdersStayEmpty(items, n, log);
    } else if |log| == |Orders(Accepted(items, false), n)| {
      var orders := Orders(Accepted(items, false), n);
      assert orders[..|log|] == orders;
      ShuffledOrdersConserveTransfers(log, Accepted(items, false), n);
    }
  }

  /** Shuffling puts nothing into the empty part of a dry run. */
  lemma EmptyOrdersStayEmpty(items: seq<Item>, n: nat, sent: seq<PartOrder>)
    requires n > 0
    requires var orders := Orders(Accepted(items, true), n);
             |sent| <= |orders| && AllShuffled(sent, orders[..|sent|])
    ensures forall k :: 0 <= k < |sent| ==> sent[k].transfers.list == []
  {
    OrdersOfADryRun(items, n);
    forall k | 0 <= k < |sent| ensures sent[k].transfers.list == [] {
      assert |multiset(sent[k].transfers.list)| == |multiset(NO_TRANSFERS.list)|;
    }
  }
}
