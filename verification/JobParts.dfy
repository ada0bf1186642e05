/**
 Cutting the transfers of a job into parts: what cmd/zc_processor.go and cmd/copyEnumeratorHelper.go agree on.

 The transfer engine is a log of the part orders it was given, and answers each as an arbitrary function says.
 */
module JobParts {
  import opened Basics

  datatype CopyTransfer = CopyTransfer(source: string, destination: string, entityType: EntityType, sourceSize: nat)

  datatype Transfers = Transfers(list: seq<CopyTransfer>, totalSizeInBytes: nat, fileTransferCount: nat,
                                 folderTransferCount: nat, symlinkTransferCount: nat, hardlinksConvertedCount: nat) {
    /** The end of scheduleCopyTransfer and of addTransfer. */
    function Append(t: CopyTransfer): Transfers {
      var r := this.(list := list + [t], totalSizeInBytes := totalSizeInBytes + t.sourceSize);
      match t.entityType
      case File => r.(fileTransferCount := fileTransferCount + 1)
      case Folder => r.(folderTransferCount := folderTransferCount + 1)
      case Symlink => r.(symlinkTransferCount := symlinkTransferCount + 1)
      case Hardlink => r.(hardlinksConvertedCount := hardlinksConvertedCount + 1)
      case _ => r
    }
  }

  const NO_TRANSFERS: Transfers := Transfers([], 0, 0, 0, 0, 0)

  datatype PartOrder = PartOrder(partNum: nat, isFinalPart: bool, transfers: Transfers)

  datatype Response = Response(jobStarted: bool, errorMsg: string)

  const NO_TRANSFERS_SCHEDULED: string := "NoTransfersScheduledErr"

  datatype Outcome = Done | PartRefused(partNum: nat, errorMsg: string) | NothingScheduled

  /** The transfer engine, as far as one job sees it. */
  class Engine {
    const answer: nat -> Response
    var log: seq<PartOrder>

    constructor (answer: nat -> Response)
      ensures this.answer == answer && log == []
    {
      this.answer := answer;
      log := [];
    }

    method ExecuteNewCopyJobPartOrder(order: PartOrder) returns (resp: Response)
      modifies this
      ensures log == old(log) + [order] && resp == answer(|old(log)|)
    {
      resp := answer(|log|);
      log := log + [order];
    }
  }

  /** The job order both enumerators fill and send again and again. */
  class CopyJobPartOrderRequest {
    var partNum: nat
    var isFinalPart: bool
    var transfers: Transfers

    constructor ()
      ensures partNum == 0 && !isFinalPart && transfers == NO_TRANSFERS
    {
      partNum, isFinalPart, transfers := 0, false, NO_TRANSFERS;
    }

    function Value(): PartOrder
      reads this
    {
      PartOrder(partNum, isFinalPart, transfers)
    }
  }

  // ---------- counters ----------

  datatype Metric = Bytes | OfType(entityType: EntityType)

  function Weight(m: Metric, t: CopyTransfer): nat {
    match m
    case Bytes => t.sourceSize
    case OfType(e) => if t.entityType == e then 1 else 0
  }

  function Measure(list: seq<CopyTransfer>, m: Metric): nat {
    if list == [] then 0 else Measure(list[..|list| - 1], m) + Weight(m, list[|list| - 1])
  }

  /** What one transfer adds to each counter; lists add up. */
  lemma MeasureOfOne(list: seq<CopyTransfer>, t: CopyTransfer)
    ensures Measure(list + [t], Bytes) == Measure(list, Bytes) + t.sourceSize
    ensures forall e :: Measure(list + [t], OfType(e)) == Measure(list, OfType(e)) + if t.entityType == e then 1 else 0
    ensures forall m :: Measure([], m) == 0
  {
    assert (list + [t])[..|list|] == list;
  }

  /** The list with the counters that belong to it. */
  function Tallied(list: seq<CopyTransfer>): (r: Transfers)
    ensures r.list == list
  {
    if list == [] then NO_TRANSFERS else Tallied(list[..|list| - 1]).Append(list[|list| - 1])
  }

  /** The counters are the total size and the number of transfers of each counted type. */
  lemma {:induction false} TalliedCounts(list: seq<CopyTransfer>)
    ensures Tallied(list) == Transfers(list, Measure(list, Bytes),
                                       Measure(list, OfType(File)), Measure(list, OfType(Folder)),
                                       Measure(list, OfType(Symlink)), Measure(list, OfType(Hardlink)))
  {
    if list == [] {
    } else {
      TalliedCounts(list[..|list| - 1]);
    }
  }

  lemma AppendTallies(list: seq<CopyTransfer>, t: CopyTransfer)
    ensures Tallied(list).Append(t) == Tallied(list + [t])
  {
    assert (list + [t])[..|list|] == list;
  }

  lemma {:induction false} MeasureConcat(a: seq<CopyTransfer>, b: seq<CopyTransfer>, m: Metric)
    ensures Measure(a + b, m) == Measure(a, m) + Measure(b, m)
  {
    if b == [] {
      assert a + b == a;
    } else {
      var n := |b| - 1;
      MeasureConcat(a, b[..n], m);
      assert (a + b)[..|a| + n] == a + b[..n];
    }
  }

  lemma MeasureWithout(list: seq<CopyTransfer>, i: nat, m: Metric)
    requires i < |list|
    ensures Measure(list, m) == Measure(list[..i] + list[i + 1..], m) + Weight(m, list[i])
  {
    var a, x, b := list[..i], [list[i]], list[i + 1..];
    assert list == (a + x) + b;
    MeasureConcat(a + x, b, m);
    MeasureConcat(a, x, m);
    MeasureConcat(a, b, m);
    assert x[..0] == [] && x[0] == list[i];
  }

  lemma RemoveOne<T>(s: seq<T>, i: nat)
    requires i < |s|
    ensures multiset(s[..i] + s[i + 1..]) == multiset(s) - multiset{s[i]}
  {
    assert s == s[..i] + ([s[i]] + s[i + 1..]);
  }

  lemma PermutationStep<T>(a: seq<T>, b: seq<T>) returns (i: nat)
    requires a != [] && multiset(a) == multiset(b)
    ensures i < |b| && b[i] == a[|a| - 1]
    ensures multiset(a[..|a| - 1]) == multiset(b[..i] + b[i + 1..])
  {
    var n := |a| - 1;
    assert a[n] in multiset(b);
    i :| 0 <= i < |b| && b[i] == a[n];
    RemoveOne(a, n);
    RemoveOne(b, i);
    assert a[..n] + a[n + 1..] == a[..n];
  }

  /** The counters do not depend on the order. */
  lemma {:induction false} MeasureOfPermutation(a: seq<CopyTransfer>, b: seq<CopyTransfer>, m: Metric)
    requires multiset(a) == multiset(b)
    ensures Measure(a, m) == Measure(b, m)
    decreases |a|
  {
    if a == [] {
      assert |multiset(b)| == 0;
    } else {
      var i := PermutationStep(a, b);
      MeasureOfPermutation(a[..|a| - 1], b[..i] + b[i + 1..], m);
      MeasureWithout(b, i, m);
    }
  }

  // ---------- the parts ----------

  /** A list cut after every `n` elements.  There is always a last part, and it is empty only if the list is. */
  function PartsOf<T>(list: seq<T>, n: nat): (parts: seq<seq<T>>)
    requires n > 0
    ensures |parts| > 0
    decreases |list|
  {
    if |list| <= n then [list] else [list[..n]] + PartsOf(list[n..], n)
  }

  function Concat<T>(parts: seq<seq<T>>): seq<T> {
    if parts == [] then [] else parts[0] + Concat(parts[1..])
  }

  /** Nothing is lost, doubled or moved; only the last part is short, and it is empty only if there is nothing. */
  lemma {:induction false} PartsConserveTheList<T>(list: seq<T>, n: nat)
    requires n > 0
    ensures var parts := PartsOf(list, n); var last := |parts| - 1;
            && Concat(parts) == list
            && (forall k :: 0 <= k < last ==> |parts[k]| == n)
            && |parts[last]| <= n
            && (parts[last] == [] <==> list == [])
            && |list| == last * n + |parts[last]|
    decreases |list|
  {
    var parts := PartsOf(list, n);
    if |list| <= n {
      assert parts[1..] == [];
      assert list + [] == list;
    } else {
      var rest := PartsOf(list[n..], n);
      PartsConserveTheList(list[n..], n);
      assert parts[1..] == rest && parts[|parts| - 1] == rest[|rest| - 1];
      assert list == list[..n] + list[n..];
      OneTimeMore(|rest|, n);
    }
  }

  lemma OneTimeMore(k: nat, n: nat)
    ensures k * n == (k - 1) * n + n
  {
  }

  /** What one more element does: it opens a new part exactly when the last one is full. */
  lemma {:induction false} OneMore<T>(list: seq<T>, t: T, n: nat)
    requires n > 0
    ensures var parts := PartsOf(list, n); var last := |parts| - 1;
            PartsOf(list + [t], n) == if |parts[last]| == n then parts + [[t]] else parts[..last] + [parts[last] + [t]]
    decreases |list|
  {
    var parts := PartsOf(list, n);
    var last := |parts| - 1;
    if |list| < n {
    } else if |list| == n {
      assert (list + [t])[..n] == list && (list + [t])[n..] == [t];
    } else {
      var rest := PartsOf(list[n..], n);
      OneMore(list[n..], t, n);
      assert (list + [t])[..n] == list[..n] && (list + [t])[n..] == list[n..] + [t];
      assert parts[last] == rest[last - 1];
      assert parts[..last] == [list[..n]] + rest[..last - 1];
    }
  }

  function Order(parts: seq<seq<CopyTransfer>>, k: nat): PartOrder
    requires k < |parts|
  {
    PartOrder(k, k == |parts| - 1, Tallied(parts[k]))
  }

  /** The orders a list of transfers should lead to, one for each part. */
  function Orders(list: seq<CopyTransfer>, n: nat): (r: seq<PartOrder>)
    requires n > 0
    ensures |r| == |PartsOf(list, n)|
    ensures forall k :: 0 <= k < |r| ==> r[k] == Order(PartsOf(list, n), k)
  {
    var parts := PartsOf(list, n);
    seq(|parts|, k requires 0 <= k < |parts| => Order(parts, k))
  }

  /** Orders that were sent before the last part stay right, whatever comes later. */
  lemma {:induction false} EarlierOrdersStay(a: seq<CopyTransfer>, b: seq<CopyTransfer>, n: nat)
    requires n > 0
    ensures var p, q := Orders(a, n), Orders(a + b, n);
            && |p| <= |q| && p[..|p| - 1] == q[..|p| - 1]
            && (b != [] && |PartsOf(a, n)[|p| - 1]| == n ==>
                  |p| < |q| && q[|p| - 1] == p[|p| - 1].(isFinalPart := false))
    decreases |b|
  {
    if b == [] {
      assert a + b == a;
    } else {
      var m := |b| - 1;
      EarlierOrdersStay(a, b[..m], n);
      assert a + b == (a + b[..m]) + [b[m]];
      OneMore(a + b[..m], b[m], n);
      if m == 0 {
        assert a + b[..m] == a;
      }
    }
  }

  lemma ListsOfOrders(list: seq<CopyTransfer>, n: nat)
    requires n > 0
    ensures ListsOf(Orders(list, n)) == PartsOf(list, n)
  {
  }

  function ListsOf(orders: seq<PartOrder>): (r: seq<seq<CopyTransfer>>)
    ensures |r| == |orders| && forall k :: 0 <= k < |r| ==> r[k] == orders[k].transfers.list
  {
    seq(|orders|, k requires 0 <= k < |orders| => orders[k].transfers.list)
  }

  lemma {:induction false} MeasureOfParts(parts: seq<seq<CopyTransfer>>, m: Metric)
    ensures Measure(Concat(parts), m) == TotalOf(parts, m)
  {
    if parts == [] {
    } else {
      MeasureOfParts(parts[1..], m);
      MeasureConcat(parts[0], Concat(parts[1..]), m);
    }
  }

  function TotalOf(parts: seq<seq<CopyTransfer>>, m: Metric): nat {
    if parts == [] then 0 else Measure(parts[0], m) + TotalOf(parts[1..], m)
  }

  /** The orders carry the list: parts are numbered from 0, all but the last are full, the last one alone is
      final and empty only when there is nothing to send, the lists of the parts are the list cut up, every
      part's counters belong to its list, and they add up. */
  lemma OrdersConserveTransfers(list: seq<CopyTransfer>, n: nat, m: Metric)
    requires n > 0
    ensures var orders := Orders(list, n); var last := |orders| - 1;
            && last >= 0 && |list| == last * n + |orders[last].transfers.list|
            && (forall k :: 0 <= k <= last ==>
                  && orders[k].partNum == k && (orders[k].isFinalPart <==> k == last)
                  && orders[k].transfers == Tallied(orders[k].transfers.list))
            && (forall k :: 0 <= k < last ==> |orders[k].transfers.list| == n)
            && |orders[last].transfers.list| <= n
            && (orders[last].transfers.list == [] <==> list == [])
            && Concat(ListsOf(orders)) == list
            && TotalOf(ListsOf(orders), m) == Measure(list, m)
  {
    PartsConserveTheList(list, n);
    ListsOfOrders(list, n);
    MeasureOfParts(PartsOf(list, n), m);
  }

  // ---------- an enumeration ----------

  /** What becomes of one enumerated object. */
  datatype Item = Item(transfer: CopyTransfer, shouldSendToSte: bool)

  predicate Accepts(item: Item, dryrunMode: bool) {
    item.shouldSendToSte && !dryrunMode
  }

  function Accepted(items: seq<Item>, dryrunMode: bool): seq<CopyTransfer> {
    if items == [] then []
    else
      var last := items[|items| - 1];
      Accepted(items[..|items| - 1], dryrunMode) + if Accepts(last, dryrunMode) then [last.transfer] else []
  }

  lemma {:induction false} AcceptedConcat(a: seq<Item>, b: seq<Item>, dryrunMode: bool)
    ensures Accepted(a + b, dryrunMode) == Accepted(a, dryrunMode) + Accepted(b, dryrunMode)
  {
    if b == [] {
      assert a + b == a;
    } else {
      AcceptedConcat(a, b[..|b| - 1], dryrunMode);
      assert (a + b)[..|a| + |b| - 1] == a + b[..|b| - 1];
    }
  }

  /** The positions of the items that are to be sent, in order. */
  ghost predicate AreChosen(items: seq<Item>, chosen: seq<nat>) {
    && (forall k :: 0 <= k < |chosen| ==> chosen[k] < |items| && items[chosen[k]].shouldSendToSte)
    && (forall k, l :: 0 <= k < l < |chosen| ==> chosen[k] < chosen[l])
    && (forall i :: 0 <= i < |items| && items[i].shouldSendToSte ==> i in chosen)
  }

  function TransfersAt(items: seq<Item>, chosen: seq<nat>): (r: seq<CopyTransfer>)
    requires forall k :: 0 <= k < |chosen| ==> chosen[k] < |items|
    ensures |r| == |chosen| && forall k :: 0 <= k < |r| ==> r[k] == items[chosen[k]].transfer
  {
    seq(|chosen|, k requires 0 <= k < |chosen| => items[chosen[k]].transfer)
  }

  /** What is accepted are the transfers of exactly the items that are to be sent, in order. */
  lemma {:induction false} AcceptedAreTheChosen(items: seq<Item>) returns (chosen: seq<nat>)
    ensures AreChosen(items, chosen)
    ensures Accepted(items, false) == TransfersAt(items, chosen)
  {
    if items == [] {
      chosen := [];
    } else {
      var n := |items| - 1;
      var before := AcceptedAreTheChosen(items[..n]);
      chosen := before + if items[n].shouldSendToSte then [n] else [];
      ChooseOneMore(items, before, chosen);
    }
  }

  lemma ChooseOneMore(items: seq<Item>, before: seq<nat>, chosen: seq<nat>)
    requires items != [] && AreChosen(items[..|items| - 1], before)
    requires chosen == before + if items[|items| - 1].shouldSendToSte then [|items| - 1] else []
    ensures AreChosen(items, chosen)
    ensures TransfersAt(items, chosen) ==
            TransfersAt(items[..|items| - 1], before)
            + if items[|items| - 1].shouldSendToSte then [items[|items| - 1].transfer] else []
  {
    var n := |items| - 1;
    forall i | 0 <= i < |items| && items[i].shouldSendToSte ensures i in chosen {
      if i < n {
        assert items[..n][i].shouldSendToSte && i in before;
      }
    }
    forall k | 0 <= k < |before| ensures chosen[k] < n && items[..n][before[k]] == items[chosen[k]] {
    }
  }

  /** And in a dry run nothing is. */
  lemma {:induction false} NothingIsAcceptedInADryRun(items: seq<Item>)
    ensures Accepted(items, true) == []
  {
    if items == [] {
    } else {
      NothingIsAcceptedInADryRun(items[..|items| - 1]);
    }
  }

  /** The orders of a dry run: a single one, with nothing in it. */
  lemma OrdersOfADryRun(items: seq<Item>, n: nat)
    requires n > 0
    ensures Orders(Accepted(items, true), n) == [PartOrder(0, true, NO_TRANSFERS)]
  {
    NothingIsAcceptedInADryRun(items);
  }

  /** What a log that begins the right orders, or is all of them, holds. */
  lemma WhatIsSent(items: seq<Item>, n: nat, dryrunMode: bool, log: seq<PartOrder>) returns (chosen: seq<nat>)
    requires n > 0 && log <= Orders(Accepted(items, dryrunMode), n)
    ensures dryrunMode ==> forall k :: 0 <= k < |log| ==> log[k].transfers.list == []
    ensures AreChosen(items, chosen)
    ensures !dryrunMode && log == Orders(Accepted(items, dryrunMode), n) ==>
              Concat(ListsOf(log)) == TransfersAt(items, chosen)
  {
    chosen := AcceptedAreTheChosen(items);
    if dryrunMode {
      OrdersOfADryRun(items, n);
    } else {
      ListsOfOrders(Accepted(items, false), n);
      PartsConserveTheList(Accepted(items, false), n);
    }
  }

  /** `sent` and `pending` are right for the transfers accepted so far. */
  ghost predicate Batched(accepted: seq<CopyTransfer>, n: nat, sent: seq<PartOrder>, pending: PartOrder) {
    && n > 0
    && var orders := Orders(accepted, n); var last := |orders| - 1;
       sent == orders[..last] && pending == orders[last].(isFinalPart := false)
  }

  predicate Full(pending: PartOrder, n: nat) {
    |pending.transfers.list| == n
  }

  /** The order after one more transfer. */
  function Refilled(pending: PartOrder, n: nat, t: CopyTransfer): PartOrder {
    if Full(pending, n) then PartOrder(pending.partNum + 1, pending.isFinalPart, NO_TRANSFERS.Append(t))
    else pending.(transfers := pending.transfers.Append(t))
  }

  lemma OneMoreOrder(list: seq<CopyTransfer>, t: CopyTransfer, n: nat)
    requires n > 0
    ensures var p, q := Orders(list, n), Orders(list + [t], n); var last := |p| - 1;
            && last < |q| && q[..last] == p[..last]
            && (if |p[last].transfers.list| == n then
                  |q| == last + 2 && q[last] == p[last].(isFinalPart := false)
                  && q[last + 1] == PartOrder(last + 1, true, NO_TRANSFERS.Append(t))
                else
                  |q| == last + 1 && q[last] == p[last].(transfers := p[last].transfers.Append(t)))
  {
    var parts := PartsOf(list, n);
    OneMore(list, t, n);
    AppendTallies(parts[|parts| - 1], t);
    AppendTallies([], t);
    assert [] + [t] == [t];
  }

  lemma BatchedStep(accepted: seq<CopyTransfer>, n: nat, sent: seq<PartOrder>, pending: PartOrder, t: CopyTransfer)
    requires Batched(accepted, n, sent, pending)
    ensures Batched(accepted + [t], n, if Full(pending, n) then sent + [pending] else sent, Refilled(pending, n, t))
  {
    OneMoreOrder(accepted, t, n);
  }

  lemma BatchedBounds(accepted: seq<CopyTransfer>, n: nat, sent: seq<PartOrder>, pending: PartOrder)
    requires Batched(accepted, n, sent, pending)
    ensures pending.partNum == |sent| && !pending.isFinalPart
    ensures Orders(accepted, n) == sent + [pending.(isFinalPart := true)]
  {
  }

  lemma BatchedStart(n: nat)
    requires n > 0
    ensures Batched([], n, [], PartOrder(0, false, NO_TRANSFERS))
  {
  }

  lemma NextAccepted(items: seq<Item>, i: nat, dryrunMode: bool)
    requires i < |items|
    ensures var next := Accepted(items[..i + 1], dryrunMode);
            if Accepts(items[i], dryrunMode) then next == Accepted(items[..i], dryrunMode) + [items[i].transfer]
            else next == Accepted(items[..i], dryrunMode)
    ensures exists rest ::
              && Accepted(items, dryrunMode) == Accepted(items[..i], dryrunMode) + rest
              && (Accepts(items[i], dryrunMode) ==> rest != [])
  {
    assert items[..i + 1][..i] == items[..i];
    var rest := items[i..];
    assert items == items[..i] + rest;
    AcceptedConcat(items[..i], rest, dryrunMode);
    assert rest == [items[i]] + items[i + 1..];
    AcceptedConcat([items[i]], items[i + 1..], dryrunMode);
  }

  /** What was sent and what is being filled. */
  datatype Batch = Batch(sent: seq<PartOrder>, pending: PartOrder)

  function Step(b: Batch, n: nat, item: Item, dryrunMode: bool): Batch {
    if !Accepts(item, dryrunMode) then b
    else Batch(if Full(b.pending, n) then b.sent + [b.pending] else b.sent, Refilled(b.pending, n, item.transfer))
  }

  /** The state after the items, if nothing is refused. */
  function After(items: seq<Item>, n: nat, dryrunMode: bool): Batch {
    if items == [] then Batch([], PartOrder(0, false, NO_TRANSFERS))
    else Step(After(items[..|items| - 1], n, dryrunMode), n, items[|items| - 1], dryrunMode)
  }

  lemma AfterOneMore(items: seq<Item>, i: nat, n: nat, dryrunMode: bool)
    requires i < |items|
    ensures After(items[..i + 1], n, dryrunMode) == Step(After(items[..i], n, dryrunMode), n, items[i], dryrunMode)
  {
    assert items[..i + 1][..i] == items[..i];
  }

  lemma AfterAll(items: seq<Item>, n: nat, dryrunMode: bool)
    ensures After(items[..|items|], n, dryrunMode) == After(items, n, dryrunMode)
    ensures After(items[..0], n, dryrunMode) == Batch([], PartOrder(0, false, NO_TRANSFERS))
  {
    assert items[..|items|] == items;
  }

  lemma {:induction false} AfterIsBatched(items: seq<Item>, n: nat, dryrunMode: bool)
    requires n > 0
    ensures var b := After(items, n, dryrunMode); Batched(Accepted(items, dryrunMode), n, b.sent, b.pending)
  {
    if items == [] {
      BatchedStart(n);
    } else {
      var m := |items| - 1;
      AfterIsBatched(items[..m], n, dryrunMode);
      var b := After(items[..m], n, dryrunMode);
      NextAccepted(items, m, dryrunMode);
      assert items[..m + 1] == items;
      BatchedStep(Accepted(items[..m], dryrunMode), n, b.sent, b.pending, items[m].transfer);
    }
  }

  /** Once all items are in, the final part completes the orders. */
  lemma AfterCompletes(items: seq<Item>, n: nat, dryrunMode: bool)
    requires n > 0
    ensures var b := After(items, n, dryrunMode);
            && b.pending.partNum == |b.sent| && !b.pending.isFinalPart
            && Orders(Accepted(items, dryrunMode), n) == b.sent + [b.pending.(isFinalPart := true)]
  {
    var b := After(items, n, dryrunMode);
    AfterIsBatched(items, n, dryrunMode);
    BatchedBounds(Accepted(items, dryrunMode), n, b.sent, b.pending);
  }

  /** A part that is full when another transfer comes is right for the whole list. */
  lemma FullPartIsRight(items: seq<Item>, i: nat, n: nat, dryrunMode: bool)
    requires n > 0 && i < |items| && Accepts(items[i], dryrunMode) && Full(After(items[..i], n, dryrunMode).pending, n)
    ensures var b := After(items[..i], n, dryrunMode); var orders := Orders(Accepted(items, dryrunMode), n);
            && b.pending.partNum == |b.sent| && !b.pending.isFinalPart
            && |b.sent| + 1 < |orders| && b.sent + [b.pending] <= orders
  {
    var b := After(items[..i], n, dryrunMode);
    AfterIsBatched(items[..i], n, dryrunMode);
    BatchedBounds(Accepted(items[..i], dryrunMode), n, b.sent, b.pending);
    SentIsRight(items, i, dryrunMode, n, b.sent, b.pending);
  }

  /** What is sent so far is right for the whole list, and so is a part that is full when another transfer comes. */
  lemma SentIsRight(items: seq<Item>, i: nat, dryrunMode: bool, n: nat, sent: seq<PartOrder>, pending: PartOrder)
    requires i < |items| && Batched(Accepted(items[..i], dryrunMode), n, sent, pending)
    ensures sent <= Orders(Accepted(items, dryrunMode), n)
    ensures Accepts(items[i], dryrunMode) && Full(pending, n) ==>
              && sent + [pending] <= Orders(Accepted(items, dryrunMode), n)
              && |sent| + 1 < |Orders(Accepted(items, dryrunMode), n)|
  {
    NextAccepted(items, i, dryrunMode);
    var a := Accepted(items[..i], dryrunMode);
    var rest :| && Accepted(items, dryrunMode) == a + rest
                && (Accepts(items[i], dryrunMode) ==> rest != []);
    EarlierOrdersStay(a, rest, n);
    BatchedBounds(a, n, sent, pending);
    var q := Orders(a + rest, n);
    assert sent == q[..|sent|];
    assert Accepts(items[i], dryrunMode) && Full(pending, n) ==> sent + [pending] == q[..|sent| + 1];
  }
}
