/** copyTransferProcessor of cmd/zc_processor.go: buffers transfers and sends a part whenever one is full. */
module CopyTransferProcessing {
  import opened JobParts

  class CopyTransferProcessor {
    const numOfTransfersPerPart: nat
    const copyJobTemplate: CopyJobPartOrderRequest
    const engine: Engine
    const dryrunMode: bool
    var firstPartReports: seq<bool>     // calls of reportFirstPartDispatched
    var finalPartReports: nat           // calls of reportFinalPartDispatched

    constructor (numOfTransfersPerPart: nat, copyJobTemplate: CopyJobPartOrderRequest, engine: Engine, dryrunMode: bool)
      ensures this.numOfTransfersPerPart == numOfTransfersPerPart && this.dryrunMode == dryrunMode
      ensures this.copyJobTemplate == copyJobTemplate && this.engine == engine
      ensures firstPartReports == [] && finalPartReports == 0
    {
      this.numOfTransfersPerPart := numOfTransfersPerPart;
      this.copyJobTemplate := copyJobTemplate;
      this.engine := engine;
      this.dryrunMode := dryrunMode;
      firstPartReports, finalPartReports := [], 0;
    }

    method SendPartToSte() returns (resp: Response)
      modifies this`firstPartReports, engine
      ensures engine.log == old(engine.log) + [copyJobTemplate.Value()]
      ensures resp == engine.answer(|old(engine.log)|)
      ensures firstPartReports == old(firstPartReports) + if copyJobTemplate.partNum == 0 then [resp.jobStarted] else []
    {
      resp := engine.ExecuteNewCopyJobPartOrder(copyJobTemplate.Value());
      if copyJobTemplate.partNum == 0 {
        firstPartReports := firstPartReports + [resp.jobStarted];
      }
    }

    /** A full part is sent first, so that the last part cannot be empty.  Only the error message of the answer
        is looked at, not whether the job started. */
    method ScheduleCopyTransfer(item: Item) returns (err: Outcome)
      modifies this`firstPartReports, engine, copyJobTemplate
      ensures var pending, answer := old(copyJobTemplate.Value()), engine.answer(|old(engine.log)|);
              var sends := Accepts(item, dryrunMode) && Full(pending, numOfTransfersPerPart);
              && engine.log == old(engine.log) + (if sends then [pending] else [])
              && firstPartReports == old(firstPartReports)
                                     + (if sends && pending.partNum == 0 then [answer.jobStarted] else [])
              && err == (if sends && answer.errorMsg != "" then PartRefused(pending.partNum, answer.errorMsg) else Done)
              && copyJobTemplate.Value() == (if Accepts(item, dryrunMode) && err.Done?
                                             then Refilled(pending, numOfTransfersPerPart, item.transfer) else pending)
    {
      if !item.shouldSendToSte {
        return Done;
      }
      if dryrunMode {
        return Done;
      }
      if |copyJobTemplate.transfers.list| == numOfTransfersPerPart {
        var resp := SendPartToSte();
        if resp.errorMsg != "" {
          return PartRefused(copyJobTemplate.partNum, resp.errorMsg);
        }
        copyJobTemplate.transfers := NO_TRANSFERS;
        copyJobTemplate.partNum := copyJobTemplate.partNum + 1;
      }
      copyJobTemplate.transfers := copyJobTemplate.transfers.Append(item.transfer);
      return Done;
    }

    method DispatchFinalPart() returns (copyJobInitiated: bool, err: Outcome)
      modifies this, engine, copyJobTemplate
      ensures engine.log == old(engine.log) + [old(copyJobTemplate.Value()).(isFinalPart := true)]
      ensures var answer, num := engine.answer(|old(engine.log)|), old(copyJobTemplate.partNum);
              && copyJobInitiated == answer.jobStarted
              && err == (if answer.jobStarted then Done
                         else if answer.errorMsg == NO_TRANSFERS_SCHEDULED then NothingScheduled
                         else PartRefused(num, answer.errorMsg))
              && firstPartReports == old(firstPartReports) + (if num == 0 then [answer.jobStarted] else [])
              && finalPartReports == old(finalPartReports) + if answer.jobStarted then 1 else 0
    {
      copyJobTemplate.isFinalPart := true;
      var resp := SendPartToSte();
      if !resp.jobStarted {
        if resp.errorMsg == NO_TRANSFERS_SCHEDULED {
          return false, NothingScheduled;
        }
        return false, PartRefused(copyJobTemplate.partNum, resp.errorMsg);
      }
      finalPartReports := finalPartReports + 1;
      return true, Done;
    }

    /** The state a run without refusals is in after `b`. */
    ghost predicate InStep(b: Batch)
      reads this, copyJobTemplate, engine
    {
      && engine.log == b.sent && copyJobTemplate.Value() == b.pending && b.pending.partNum == |b.sent|
      && firstPartReports == (if b.sent == [] then [] else [engine.answer(0).jobStarted])
      && finalPartReports == 0
      && (forall k :: 0 <= k < |b.sent| ==> engine.answer(k).errorMsg == "")
    }

    /** One item, seen from the state it is met in. */
    method ScheduleNext(item: Item, ghost b: Batch) returns (err: Outcome)
      requires InStep(b)
      modifies this`firstPartReports, engine, copyJobTemplate
      ensures var answer := engine.answer(|b.sent|);
              if err.Done? then InStep(Step(b, numOfTransfersPerPart, item, dryrunMode))
              else
                && Accepts(item, dryrunMode) && Full(b.pending, numOfTransfersPerPart)
                && err == PartRefused(|b.sent|, answer.errorMsg) && answer.errorMsg != ""
                && engine.log == b.sent + [b.pending]
                && firstPartReports == [engine.answer(0).jobStarted] && finalPartReports == 0
    {
      err := ScheduleCopyTransfer(item);
    }

    /** The enumeration, up to the item whose coming has a full part refused. */
    method ScheduleAll(items: seq<Item>) returns (err: Outcome, ghost reached: nat)
      requires InStep(After([], numOfTransfersPerPart, dryrunMode))
      modifies this`firstPartReports, engine, copyJobTemplate
      ensures err.Done? ==> InStep(After(items, numOfTransfersPerPart, dryrunMode))
      ensures !err.Done? ==>
                && reached < |items| && Accepts(items[reached], dryrunMode)
                && var b := After(items[..reached], numOfTransfersPerPart, dryrunMode);
                   var answer := engine.answer(|b.sent|);
                   && Full(b.pending, numOfTransfersPerPart)
                   && err == PartRefused(|b.sent|, answer.errorMsg) && answer.errorMsg != ""
                   && engine.log == b.sent + [b.pending]
                   && firstPartReports == [engine.answer(0).jobStarted] && finalPartReports == 0
    {
      ghost var n := numOfTransfersPerPart;
      reached := 0;
      AfterAll(items, n, dryrunMode);
      for i := 0 to |items|
        invariant InStep(After(items[..i], n, dryrunMode))
      {
        AfterOneMore(items, i, n, dryrunMode);
        reached := i;
        err := ScheduleNext(items[i], After(items[..i], n, dryrunMode));
        if !err.Done? {
          return;
        }
      }
      err := Done;
    }

    /** A whole enumeration and its end.  What reaches the engine is always the beginning of the one right
        sequence of orders.  The run succeeds exactly when every earlier part was answered without a message and
        the final part started the job, and then the engine has all of it. */
    method SendAll(items: seq<Item>) returns (err: Outcome)
      requires numOfTransfersPerPart > 0 && InStep(After([], numOfTransfersPerPart, dryrunMode))
      modifies this, engine, copyJobTemplate
      ensures var orders := Orders(Accepted(items, dryrunMode), numOfTransfersPerPart); var last := |orders| - 1;
              && engine.log <= orders
              && firstPartReports == [engine.answer(0).jobStarted]
              && (err.Done? <==> && (forall k :: 0 <= k < last ==> engine.answer(k).errorMsg == "")
                                 && engine.answer(last).jobStarted)
              && (err.Done? ==> engine.log == orders)
              && finalPartReports == (if err.Done? then 1 else 0)
              && (err.PartRefused? ==> |engine.log| == err.partNum + 1)
    {
      ghost var reached;
      err, reached := ScheduleAll(items);
      if err.Done? {
        AfterCompletes(items, numOfTransfersPerPart, dryrunMode);
        var copyJobInitiated;
        copyJobInitiated, err := DispatchFinalPart();
      } else {
        FullPartIsRight(items, reached, numOfTransfersPerPart, dryrunMode);
      }
    }

    /** And what that means for the items: a run that succeeds sends the transfers of exactly the items that are to
        be sent, in order, cut into parts; a dry run sends none. */
    method Run(items: seq<Item>) returns (err: Outcome, ghost chosen: seq<nat>)
      requires numOfTransfersPerPart > 0 && InStep(After([], numOfTransfersPerPart, dryrunMode))
      modifies this, engine, copyJobTemplate
      ensures var orders := Orders(Accepted(items, dryrunMode), numOfTransfersPerPart); var last := |orders| - 1;
              && engine.log <= orders
              && firstPartReports == [engine.answer(0).jobStarted]
              && (err.Done? <==> && (forall k :: 0 <= k < last ==> engine.answer(k).errorMsg == "")
                                 && engine.answer(last).jobStarted)
              && (err.Done? ==> engine.log == orders)
              && finalPartReports == (if err.Done? then 1 else 0)
              && (err.PartRefused? ==> |engine.log| == err.partNum + 1)
      ensures dryrunMode ==> forall k :: 0 <= k < |engine.log| ==> engine.log[k].transfers.list == []
      ensures AreChosen(items, chosen)
      ensures !dryrunMode && err.Done? ==> Concat(ListsOf(engine.log)) == TransfersAt(items, chosen)
    {
      err := SendAll(items);
      chosen := WhatIsSent(items, numOfTransfersPerPart, dryrunMode, engine.log);
    }
  }
}
