/**
 The two sync algorithms: cmd/syncComparator.go and cmd/syncEnumerator.go on top of
 traverser/syncIndexer.go and traverser/zc_enumerator.go.

 One indexes the source and streams the destination, the other indexes the destination and streams the
 source.  Both take entries out of their index as they go and treat what is left at the end.
 */
module SyncEnumeration {
  import opened Basics
  import JobParts
  import opened SyncPlan

  /** A scheduler or a cleaner: what it is called with is recorded, which calls fail is given. */
  class Processor {
    var calls: seq<StoredObject>
    const fails: StoredObject -> bool

    constructor (fails: StoredObject -> bool)
      ensures calls == [] && this.fails == fails
    {
      calls := [];
      this.fails := fails;
    }

    method Process(o: StoredObject) returns (ok: bool)
      modifies this
      ensures calls == old(calls) + [o] && ok == !fails(o)
    {
      calls := calls + [o];
      ok := !fails(o);
    }
  }

  class ObjectIndexer {
    var indexMap: map<string, StoredObject>
    var counter: nat
    const isDestinationCaseInsensitive: bool
    const toLower: string -> string

    constructor (isDestinationCaseInsensitive: bool, toLower: string -> string)
      ensures indexMap == map[] && counter == 0
      ensures this.isDestinationCaseInsensitive == isDestinationCaseInsensitive && this.toLower == toLower
    {
      indexMap, counter := map[], 0;
      this.isDestinationCaseInsensitive := isDestinationCaseInsensitive;
      this.toLower := toLower;
    }

    /** The key a path is filed under. */
    function Key(): string -> string {
      if isDestinationCaseInsensitive then toLower else SamePath
    }

    method Store(storedObject: StoredObject)
      modifies this
      ensures indexMap == old(indexMap)[Key()(storedObject.relativePath) := storedObject]
      ensures counter == old(counter) + 1
    {
      if isDestinationCaseInsensitive {
        var lcRelativePath := toLower(storedObject.relativePath);
        indexMap := indexMap[lcRelativePath := storedObject];
      } else {
        indexMap := indexMap[storedObject.relativePath := storedObject];
      }
      counter := counter + 1;
    }

    /** Hands every remaining entry to the processor, in any order, until one fails. */
    method Traverse(processor: Processor) returns (ok: bool)
      modifies processor
      ensures old(processor.calls) <= processor.calls
      ensures NoRepeats(processor.calls[|old(processor.calls)|..]) || !IndexedBy(Key(), indexMap)
      ensures forall o :: o in processor.calls[|old(processor.calls)|..] ==>
                exists k :: k in indexMap && indexMap[k] == o
      ensures ok ==> forall k :: k in indexMap ==> indexMap[k] in processor.calls[|old(processor.calls)|..]
      ensures ok <==> forall o :: o in processor.calls[|old(processor.calls)|..] ==> !processor.fails(o)
    {
      ghost var n := |processor.calls|;
      var todo := indexMap.Keys;
      while todo != {}
        invariant todo <= indexMap.Keys
        invariant old(processor.calls) <= processor.calls && |old(processor.calls)| == n
        invariant NoRepeats(processor.calls[n..]) || !IndexedBy(Key(), indexMap)
        invariant forall o :: o in processor.calls[n..] ==>
                    !processor.fails(o) && exists k :: k in indexMap && k !in todo && indexMap[k] == o
        invariant forall k :: k in indexMap && k !in todo ==> indexMap[k] in processor.calls[n..]
        decreases |todo|
      {
        var k :| k in todo;
        ghost var before := processor.calls;
        var o := indexMap[k];
        ok := processor.Process(o);
        assert processor.calls[n..] == before[n..] + [o];
        todo := todo - {k};
        if !ok {
          assert o in processor.calls[n..];
          return;
        }
      }
      ok := true;
    }
  }

  /** Used when the source is indexed and the destination is streamed. */
  class SyncDestinationComparator {
    const sourceIndex: ObjectIndexer
    const copyTransferScheduler: Processor
    const destinationCleaner: Processor
    const opts: Options

    constructor (sourceIndex: ObjectIndexer, copyTransferScheduler: Processor, destinationCleaner: Processor,
                 opts: Options)
      ensures this.sourceIndex == sourceIndex && this.opts == opts
      ensures this.copyTransferScheduler == copyTransferScheduler && this.destinationCleaner == destinationCleaner
    {
      this.sourceIndex := sourceIndex;
      this.copyTransferScheduler := copyTransferScheduler;
      this.destinationCleaner := destinationCleaner;
      this.opts := opts;
    }

    /** The key under which the source entry for a destination path is found: the path itself or, where the
        destination ignores case and the path is not there, its folded form. */
    function Lookup(path: string): (r: Option<string>)
      reads sourceIndex
      ensures r == Some(path) <== path in sourceIndex.indexMap
      ensures r.Some? ==> r.value in sourceIndex.indexMap && (r.value == path || path !in sourceIndex.indexMap)
      ensures r.Some? && r.value != path ==>
                sourceIndex.isDestinationCaseInsensitive && r.value == sourceIndex.toLower(path)
      ensures r.None? ==>
                path !in sourceIndex.indexMap
                && (sourceIndex.isDestinationCaseInsensitive ==> sourceIndex.toLower(path) !in sourceIndex.indexMap)
    {
      var lower := sourceIndex.toLower(path);
      if path in sourceIndex.indexMap then Some(path)
      else if sourceIndex.isDestinationCaseInsensitive && lower in sourceIndex.indexMap then Some(lower)
      else None
    }

    /** A destination object found at the source leaves the index and is overwritten when stale; one that is
        not found goes to the cleaner, whose failure is ignored. */
    method ProcessIfNecessary(destinationObject: StoredObject) returns (ok: bool)
      requires copyTransferScheduler != destinationCleaner
      modifies sourceIndex`indexMap, copyTransferScheduler, destinationCleaner
      ensures var d, found := destinationObject, old(Lookup(destinationObject.relativePath));
              match found
              case None =>
                && ok && sourceIndex.indexMap == old(sourceIndex.indexMap)
                && copyTransferScheduler.calls == old(copyTransferScheduler.calls)
                && destinationCleaner.calls == old(destinationCleaner.calls) + [d]
              case Some(k) =>
                var s := old(sourceIndex.indexMap)[k];
                && sourceIndex.indexMap == old(sourceIndex.indexMap) - {d.relativePath}
                && destinationCleaner.calls == old(destinationCleaner.calls)
                && copyTransferScheduler.calls ==
                     old(copyTransferScheduler.calls) + (if Stale(opts, s, d) then [s] else [])
                && (ok <==> !(Stale(opts, s, d) && copyTransferScheduler.fails(s)))
    {
      var path := destinationObject.relativePath;
      var present := path in sourceIndex.indexMap;
      var key := path;
      if !present && sourceIndex.isDestinationCaseInsensitive {
        key := sourceIndex.toLower(path);
        present := key in sourceIndex.indexMap;
      }
      if present {
        var sourceObjectInMap := sourceIndex.indexMap[key];
        ok := Compare(sourceObjectInMap, destinationObject);
        sourceIndex.indexMap := sourceIndex.indexMap - {path};
      } else {
        var _ := destinationCleaner.Process(destinationObject);
        ok := true;
      }
    }

    method Compare(s: StoredObject, d: StoredObject) returns (ok: bool)
      modifies copyTransferScheduler
      ensures copyTransferScheduler.calls == old(copyTransferScheduler.calls) + (if Stale(opts, s, d) then [s] else [])
      ensures ok <==> !(Stale(opts, s, d) && copyTransferScheduler.fails(s))
    {
      if opts.disableComparison {
        ok := copyTransferScheduler.Process(s);
        return;
      }
      if opts.comparisonHashType != NoHash && s.entityType == File {
        if s.md5 == None {
          if IsMoreRecentThan(s, d, opts.preferSMBTime) {
            ok := copyTransferScheduler.Process(s);
            return;
          } else {
            return true;
          }
        }
        if s.md5 != d.md5 {
          ok := copyTransferScheduler.Process(s);
          return;
        }
        return true;
      } else if IsMoreRecentThan(s, d, opts.preferSMBTime) {
        ok := copyTransferScheduler.Process(s);
        return;
      }
      return true;
    }
  }

  /** Used when the destination is indexed and the source is streamed. */
  class SyncSourceComparator {
    const copyTransferScheduler: Processor
    const destinationIndex: ObjectIndexer
    const opts: Options

    constructor (destinationIndex: ObjectIndexer, copyTransferScheduler: Processor, opts: Options)
      ensures this.destinationIndex == destinationIndex && this.opts == opts
      ensures this.copyTransferScheduler == copyTransferScheduler
    {
      this.copyTransferScheduler := copyTransferScheduler;
      this.destinationIndex := destinationIndex;
      this.opts := opts;
    }

    /** A source object found at the destination leaves the index and is sent when stale; one that is not
        found is sent. */
    method ProcessIfNecessary(sourceObject: StoredObject) returns (ok: bool)
      modifies destinationIndex`indexMap, copyTransferScheduler
      ensures var s, m := sourceObject, old(destinationIndex.indexMap);
              var k := destinationIndex.Key()(s.relativePath);
              var send := k !in m || Stale(opts, s, m[k]);
              && destinationIndex.indexMap == m - {k}
              && copyTransferScheduler.calls == old(copyTransferScheduler.calls) + (if send then [s] else [])
              && (ok <==> !(send && copyTransferScheduler.fails(s)))
    {
      var relPath := sourceObject.relativePath;
      if destinationIndex.isDestinationCaseInsensitive {
        relPath := destinationIndex.toLower(relPath);
      }
      if relPath in destinationIndex.indexMap {
        var destinationObjectInMap := destinationIndex.indexMap[relPath];
        destinationIndex.indexMap := destinationIndex.indexMap - {relPath};
        if opts.disableComparison {
          ok := copyTransferScheduler.Process(sourceObject);
          return;
        }
        if opts.comparisonHashType != NoHash && sourceObject.entityType == File {
          if sourceObject.md5 == None {
            if IsMoreRecentThan(sourceObject, destinationObjectInMap, opts.preferSMBTime) {
              ok := copyTransferScheduler.Process(sourceObject);
              return;
            } else {
              return true;
            }
          }
          if sourceObject.md5 != destinationObjectInMap.md5 {
            ok := copyTransferScheduler.Process(sourceObject);
            return;
          }
          return true;
        } else if IsMoreRecentThan(sourceObject, destinationObjectInMap, opts.preferSMBTime) {
          ok := copyTransferScheduler.Process(sourceObject);
          return;
        }
        return true;
      }
      ok := copyTransferScheduler.Process(sourceObject);
    }
  }

  // ---------- the two enumerations ----------

  /** What the source-first run has sent after streaming the destination objects in `done`. */
  ghost predicate SentSoFar(opts: Options, src: map<string, StoredObject>, done: map<string, StoredObject>,
                            o: StoredObject) {
    var k := o.relativePath;
    k in src && src[k] == o && k in done && Stale(opts, o, done[k])
  }

  ghost predicate SourceFirstLogs(opts: Options, src: map<string, StoredObject>, done: map<string, StoredObject>,
                                  index: map<string, StoredObject>, sent: seq<StoredObject>, cleaned: seq<StoredObject>)
  {
    && index == src - done.Keys
    && NoRepeats(sent) && (forall o :: o in sent <==> SentSoFar(opts, src, done, o))
    && NoRepeats(cleaned) && (forall o :: o in cleaned <==> ToDelete(SamePath, src, done, o))
  }

  lemma StreamOneDestination(opts: Options, src: map<string, StoredObject>, done: map<string, StoredObject>,
                             index: map<string, StoredObject>, sent: seq<StoredObject>, cleaned: seq<StoredObject>,
                             d: StoredObject)
    requires SourceFirstLogs(opts, src, done, index, sent, cleaned)
    requires IndexedBy(SamePath, src) && d.relativePath !in done
    ensures var k, done' := d.relativePath, done[d.relativePath := d];
            && (k !in index ==> SourceFirstLogs(opts, src, done', index, sent, cleaned + [d]))
            && (k in index ==> SourceFirstLogs(opts, src, done', index - {k},
                                               sent + (if Stale(opts, index[k], d) then [index[k]] else []), cleaned))
  {
    var k, done' := d.relativePath, done[d.relativePath := d];
    assert done'.Keys == done.Keys + {k};
    if k in index {
      var s := index[k];
      assert s !in sent;
      var sent' := sent + (if Stale(opts, s, d) then [s] else []);
      assert index - {k} == src - done'.Keys;
      forall o ensures o in sent' <==> SentSoFar(opts, src, done', o) {
        if o.relativePath != k {
          assert o in sent <==> SentSoFar(opts, src, done, o);
        }
      }
      forall o ensures o in cleaned <==> ToDelete(SamePath, src, done', o) {
        assert o in cleaned <==> ToDelete(SamePath, src, done, o);
      }
    } else {
      assert d !in cleaned;
      assert index == src - done'.Keys;
      forall o ensures o in sent <==> SentSoFar(opts, src, done', o) {
        assert o in sent <==> SentSoFar(opts, src, done, o);
      }
      forall o ensures o in cleaned + [d] <==> ToDelete(SamePath, src, done', o) {
        if o != d {
          assert o in cleaned <==> ToDelete(SamePath, src, done, o);
        }
      }
    }
  }

  /** After the whole destination went by, sending what is left in the index completes the plan. */
  lemma SendTheRest(opts: Options, src: map<string, StoredObject>, dst: map<string, StoredObject>,
                    index: map<string, StoredObject>, sent: seq<StoredObject>, cleaned: seq<StoredObject>,
                    rest: seq<StoredObject>)
    requires SourceFirstLogs(opts, src, dst, index, sent, cleaned) && IndexedBy(SamePath, src)
    requires NoRepeats(rest) && forall o :: o in rest ==> exists k :: k in index && index[k] == o
    ensures NoRepeats(sent + rest) && forall o :: o in sent + rest ==> ToTransfer(opts, SamePath, src, dst, o)
    ensures (forall k :: k in index ==> index[k] in rest) ==> IsPlan(opts, SamePath, src, dst, sent + rest, cleaned)
  {
    forall o | o in rest ensures o !in sent && o.relativePath in index && index[o.relativePath] == o {
      assert o in sent <==> SentSoFar(opts, src, dst, o);
    }
    forall o | o in sent + rest ensures ToTransfer(opts, SamePath, src, dst, o) {
      assert o in sent <==> SentSoFar(opts, src, dst, o);
    }
    if forall k :: k in index ==> index[k] in rest {
      forall o | ToTransfer(opts, SamePath, src, dst, o) ensures o in sent + rest {
        assert o in sent <==> SentSoFar(opts, src, dst, o);
        if o.relativePath !in dst {
          assert o.relativePath in index && index[o.relativePath] in rest;
        }
      }
    }
  }

  lemma LogsStayWithinThePlan(opts: Options, src: map<string, StoredObject>, objects: seq<StoredObject>, n: nat,
                              index: map<string, StoredObject>, sent: seq<StoredObject>, cleaned: seq<StoredObject>)
    requires n <= |objects| && UniqueKeys(SamePath, objects)
    requires SourceFirstLogs(opts, src, Index(SamePath, objects[..n]), index, sent, cleaned)
    ensures forall o :: o in sent ==> ToTransfer(opts, SamePath, src, Index(SamePath, objects), o)
    ensures forall o :: o in cleaned ==> ToDelete(SamePath, src, Index(SamePath, objects), o)
  {
    IndexHoldsTheObjects(SamePath, objects);
    var done, all := Index(SamePath, objects[..n]), Index(SamePath, objects);
    assert UniqueKeys(SamePath, objects[..n]);
    IndexHoldsTheObjects(SamePath, objects[..n]);
    forall k | k in done ensures k in all && all[k] == done[k] {
      assert done[k] in objects[..n];
    }
    forall o | o in sent ensures ToTransfer(opts, SamePath, src, all, o) {
      assert SentSoFar(opts, src, done, o);
    }
    forall o | o in cleaned ensures ToDelete(SamePath, src, all, o) {
      assert ToDelete(SamePath, src, done, o);
    }
  }

  /** Indexes a listing that repeats no key. */
  method FillIndex(indexer: ObjectIndexer, objects: seq<StoredObject>)
    requires indexer.indexMap == map[]
    modifies indexer
    ensures indexer.indexMap == Index(indexer.Key(), objects)
  {
    assert objects[..0] == [];
    for n := 0 to |objects|
      invariant indexer.indexMap == Index(indexer.Key(), objects[..n])
    {
      assert objects[..n + 1][..n] == objects[..n];
      indexer.Store(objects[n]);
    }
    assert objects[..|objects|] == objects;
  }

  /** Streams the destination objects through the comparator until one fails. */
  method StreamDestination(comparator: SyncDestinationComparator, objects: seq<StoredObject>,
                           ghost src: map<string, StoredObject>)
    returns (ok: bool)
    requires comparator.copyTransferScheduler != comparator.destinationCleaner
    requires !comparator.sourceIndex.isDestinationCaseInsensitive && comparator.sourceIndex.indexMap == src
    requires comparator.copyTransferScheduler.calls == [] && comparator.destinationCleaner.calls == []
    requires IndexedBy(SamePath, src) && UniqueKeys(SamePath, objects)
    modifies comparator.sourceIndex`indexMap, comparator.copyTransferScheduler, comparator.destinationCleaner
    ensures var dst := Index(SamePath, objects);
            var sent, cleaned := comparator.copyTransferScheduler.calls, comparator.destinationCleaner.calls;
            && (ok ==> SourceFirstLogs(comparator.opts, src, dst, comparator.sourceIndex.indexMap, sent, cleaned))
            && NoRepeats(sent) && (forall o :: o in sent ==> ToTransfer(comparator.opts, SamePath, src, dst, o))
            && NoRepeats(cleaned) && (forall o :: o in cleaned ==> ToDelete(SamePath, src, dst, o))
            && (ok <==> forall o :: o in sent ==> !comparator.copyTransferScheduler.fails(o))
  {
    var index, scheduler := comparator.sourceIndex, comparator.copyTransferScheduler;
    var cleaner := comparator.destinationCleaner;
    ghost var opts := comparator.opts;
    assert objects[..0] == [];
    for n := 0 to |objects|
      invariant SourceFirstLogs(opts, src, Index(SamePath, objects[..n]), index.indexMap,
                                scheduler.calls, cleaner.calls)
      invariant forall o :: o in scheduler.calls ==> !scheduler.fails(o)
    {
      IndexOneMore(SamePath, objects, n);
      StreamOneDestination(opts, src, Index(SamePath, objects[..n]), index.indexMap,
                           scheduler.calls, cleaner.calls, objects[n]);
      ok := comparator.ProcessIfNecessary(objects[n]);
      if !ok {
        LogsStayWithinThePlan(opts, src, objects, n + 1, index.indexMap, scheduler.calls, cleaner.calls);
        return;
      }
    }
    assert objects[..|objects|] == objects;
    LogsStayWithinThePlan(opts, src, objects, |objects|, index.indexMap, scheduler.calls, cleaner.calls);
    ok := true;
  }

  /** The finalizer of an upload: what is left of the source is sent, then the final job part. */
  method FinalizeUpload(indexer: ObjectIndexer, scheduler: Processor, finalPart: JobParts.Outcome,
                        ghost opts: Options, ghost src: map<string, StoredObject>,
                        ghost dst: map<string, StoredObject>, ghost cleaned: seq<StoredObject>)
    returns (ok: bool)
    requires indexer.Key() == SamePath && IndexedBy(SamePath, src)
    requires SourceFirstLogs(opts, src, dst, indexer.indexMap, scheduler.calls, cleaned)
    requires forall o :: o in scheduler.calls ==> !scheduler.fails(o)
    modifies scheduler
    ensures ok ==> IsPlan(opts, SamePath, src, dst, scheduler.calls, cleaned)
    ensures NoRepeats(scheduler.calls) && (forall o :: o in scheduler.calls ==> ToTransfer(opts, SamePath, src, dst, o))
    ensures ok <==> (forall o :: o in scheduler.calls ==> !scheduler.fails(o)) && !finalPart.PartRefused?
  {
    ghost var sent := scheduler.calls;
    ok := indexer.Traverse(scheduler);
    ghost var rest := scheduler.calls[|sent|..];
    assert scheduler.calls == sent + rest;
    SendTheRest(opts, src, dst, indexer.indexMap, sent, cleaned, rest);
    if !ok {
      return;
    }
    // nothing scheduled is no error
    ok := finalPart == JobParts.Done || finalPart == JobParts.NothingScheduled;
  }

  /** Upload: the source is listed and indexed, then the destination is listed and cleaned on the way, and at
      the end what is left of the source is sent. */
  method SyncSourceFirst(source: seq<StoredObject>, sourceEnd: ListingEnd,
                         destination: seq<StoredObject>, destinationEnd: ListingEnd, opts: Options,
                         toLower: string -> string, scheduler: Processor, cleaner: Processor,
                         finalPart: JobParts.Outcome)
    returns (ok: bool)
    requires scheduler != cleaner && scheduler.calls == [] && cleaner.calls == []
    requires UniqueKeys(SamePath, source) && UniqueKeys(SamePath, destination)
    modifies scheduler, cleaner
    ensures var src, dst := Index(SamePath, source), Index(SamePath, destination);
            && (ok ==> IsPlan(opts, SamePath, src, dst, scheduler.calls, cleaner.calls))
            && NoRepeats(scheduler.calls)
            && (forall o :: o in scheduler.calls ==> ToTransfer(opts, SamePath, src, dst, o))
            && NoRepeats(cleaner.calls) && (forall o :: o in cleaner.calls ==> ToDelete(SamePath, src, dst, o))
    ensures ok <==> && !sourceEnd.Broken? && !destinationEnd.Broken? && !finalPart.PartRefused?
                    && forall o :: o in scheduler.calls ==> !scheduler.fails(o)
  {
    ghost var src, dst := Index(SamePath, source), Index(SamePath, destination);
    IndexHoldsTheObjects(SamePath, source);
    var indexer := new ObjectIndexer(false, toLower);
    var comparator := new SyncDestinationComparator(indexer, scheduler, cleaner, opts);
    FillIndex(indexer, source);
    if sourceEnd.Broken? {
      return false;
    }
    ok := StreamDestination(comparator, destination, src);
    if !ok {
      return;
    }
    if destinationEnd.Broken? {
      return false;
    }
    ok := FinalizeUpload(indexer, scheduler, finalPart, opts, src, dst, cleaner.calls);
  }

  // ---------- index the destination, stream the source ----------

  function KeyAt(key: string -> string, objects: seq<StoredObject>, i: nat): string
    requires i < |objects|
  {
    key(objects[i].relativePath)
  }

  ghost predicate WentBy(key: string -> string, objects: seq<StoredObject>, n: nat, k: string)
    requires n <= |objects|
  {
    exists i :: 0 <= i < n && KeyAt(key, objects, i) == k
  }

  /** The n-th source object is sent if the destination lacks it or is stale, and also if an object with the same
      key went by before: that one took the entry out of the index. */
  ghost predicate SentAt(opts: Options, key: string -> string, dst: map<string, StoredObject>,
                         objects: seq<StoredObject>, n: nat)
    requires n < |objects|
  {
    var k := key(objects[n].relativePath);
    WentBy(key, objects, n, k) || k !in dst || Stale(opts, objects[n], dst[k])
  }

  /** What is sent for a source listing, in its order, whether keys repeat or not. */
  ghost function SentBy(opts: Options, key: string -> string, dst: map<string, StoredObject>,
                        objects: seq<StoredObject>): seq<StoredObject>
  {
    if objects == [] then []
    else
      var n := |objects| - 1;
      SentBy(opts, key, dst, objects[..n]) + if SentAt(opts, key, dst, objects, n) then [objects[n]] else []
  }

  lemma WentByPrefix(key: string -> string, objects: seq<StoredObject>, m: nat, n: nat, k: string)
    requires n <= m <= |objects|
    ensures WentBy(key, objects[..m], n, k) <==> WentBy(key, objects, n, k)
  {
    assert forall i :: 0 <= i < n ==> KeyAt(key, objects[..m], i) == KeyAt(key, objects, i);
  }

  lemma {:induction false} IndexedKeys(key: string -> string, objects: seq<StoredObject>, k: string)
    ensures k in Index(key, objects) <==> WentBy(key, objects, |objects|, k)
  {
    if objects == [] {
    } else {
      var n := |objects| - 1;
      IndexedKeys(key, objects[..n], k);
      WentByPrefix(key, objects, n, n, k);
      assert WentBy(key, objects, n + 1, k) <==> WentBy(key, objects, n, k) || KeyAt(key, objects, n) == k;
    }
  }

  lemma SentAtDependsOnThePast(opts: Options, key: string -> string, dst: map<string, StoredObject>,
                               objects: seq<StoredObject>, n: nat)
    requires n < |objects|
    ensures SentAt(opts, key, dst, objects[..n + 1], n) <==> SentAt(opts, key, dst, objects, n)
    ensures SentBy(opts, key, dst, objects[..n + 1]) ==
            SentBy(opts, key, dst, objects[..n]) + if SentAt(opts, key, dst, objects, n) then [objects[n]] else []
  {
    assert objects[..n + 1][..n] == objects[..n];
    WentByPrefix(key, objects, n + 1, n, key(objects[n].relativePath));
  }

  lemma {:induction false} SentByGrows(opts: Options, key: string -> string, dst: map<string, StoredObject>,
                                       objects: seq<StoredObject>, n: nat)
    requires n <= |objects|
    ensures SentBy(opts, key, dst, objects[..n]) <= SentBy(opts, key, dst, objects)
    decreases |objects| - n
  {
    if n == |objects| {
      assert objects[..n] == objects;
    } else {
      SentByGrows(opts, key, dst, objects, n + 1);
      SentAtDependsOnThePast(opts, key, dst, objects, n);
    }
  }

  /** A later object with the key of an earlier one is always sent, even if the destination is up to date. */
  lemma LaterTwinIsAlwaysSent(opts: Options, key: string -> string, dst: map<string, StoredObject>,
                              objects: seq<StoredObject>, i: nat, n: nat)
    requires i < n < |objects| && KeyAt(key, objects, i) == KeyAt(key, objects, n)
    ensures objects[n] in SentBy(opts, key, dst, objects)
  {
    SentAtDependsOnThePast(opts, key, dst, objects, n);
    SentByGrows(opts, key, dst, objects, n + 1);
    var sent := SentBy(opts, key, dst, objects[..n + 1]);
    assert sent[|sent| - 1] == objects[n];
  }

  /** The index after `n` source objects. */
  ghost predicate SourceStreamed(opts: Options, key: string -> string, dst: map<string, StoredObject>,
                                 objects: seq<StoredObject>,
                                 n: nat, index: map<string, StoredObject>, sent: seq<StoredObject>)
    requires n <= |objects|
  {
    index == dst - Index(key, objects[..n]).Keys && sent == SentBy(opts, key, dst, objects[..n])
  }

  lemma StreamOneSource(opts: Options, key: string -> string, dst: map<string, StoredObject>,
                        objects: seq<StoredObject>, n: nat,
                        index: map<string, StoredObject>, sent: seq<StoredObject>)
    requires n < |objects| && SourceStreamed(opts, key, dst, objects, n, index, sent)
    ensures var s := objects[n];
            var k := key(s.relativePath);
            var send := k !in index || Stale(opts, s, index[k]);
            SourceStreamed(opts, key, dst, objects, n + 1, index - {k}, sent + (if send then [s] else []))
  {
    var k := key(objects[n].relativePath);
    IndexedKeys(key, objects[..n], k);
    SentAtDependsOnThePast(opts, key, dst, objects, n);
    WentByPrefix(key, objects, n, n, k);
    assert objects[..n + 1][..n] == objects[..n];
    var before, after := Index(key, objects[..n]), Index(key, objects[..n + 1]);
    assert after.Keys == before.Keys + {k};
    assert index - {k} == dst - after.Keys;
  }

  /** Where keys do not repeat, what is sent is what the plan says. */
  lemma {:induction false} UniqueSentByIsThePlan(opts: Options, key: string -> string, dst: map<string, StoredObject>,
                                                 objects: seq<StoredObject>)
    requires UniqueKeys(key, objects)
    ensures NoRepeats(SentBy(opts, key, dst, objects))
    ensures forall o :: o in SentBy(opts, key, dst, objects) <==> ToTransfer(opts, key, Index(key, objects), dst, o)
  {
    if objects == [] {
    } else {
      var n := |objects| - 1;
      assert UniqueKeys(key, objects[..n]);
      UniqueSentByIsThePlan(opts, key, dst, objects[..n]);
      OnePlanMore(opts, key, dst, objects);
      assert !ToTransfer(opts, key, Index(key, objects[..n]), dst, objects[n]);
    }
  }

  lemma OnePlanMore(opts: Options, key: string -> string, dst: map<string, StoredObject>, objects: seq<StoredObject>)
    requires objects != [] && UniqueKeys(key, objects)
    ensures var n := |objects| - 1;
            var s, before, after := objects[n], Index(key, objects[..n]), Index(key, objects);
            && key(s.relativePath) !in before
            && (forall o :: ToTransfer(opts, key, after, dst, o) <==>
                  ToTransfer(opts, key, before, dst, o) || (o == s && SentAt(opts, key, dst, objects, n)))
  {
    var n := |objects| - 1;
    var k := key(objects[n].relativePath);
    IndexedKeys(key, objects[..n], k);
    WentByPrefix(key, objects, n, n, k);
    assert forall i :: 0 <= i < n ==> KeyAt(key, objects, i) != k;
    IndexHoldsTheObjects(key, objects);
  }

  /** After the whole source went by, what is left in the index is what the source lacks. */
  lemma CleanTheRest(key: string -> string, src: map<string, StoredObject>, dst: map<string, StoredObject>,
                     index: map<string, StoredObject>, rest: seq<StoredObject>)
    requires index == dst - src.Keys && IndexedBy(key, dst)
    requires NoRepeats(rest) && forall o :: o in rest ==> exists k :: k in index && index[k] == o
    ensures forall o :: o in rest ==> ToDelete(key, src, dst, o)
    ensures (forall k :: k in index ==> index[k] in rest) ==> forall o :: o in rest <==> ToDelete(key, src, dst, o)
  {
    forall o | o in rest ensures ToDelete(key, src, dst, o) {
      var k :| k in index && index[k] == o;
      assert dst[k] == o;
    }
    if forall k :: k in index ==> index[k] in rest {
      forall o | ToDelete(key, src, dst, o) ensures o in rest {
        assert key(o.relativePath) in index && index[key(o.relativePath)] in rest;
      }
    }
  }

  /** Streams the source objects through the comparator until one fails. */
  method StreamSource(comparator: SyncSourceComparator, objects: seq<StoredObject>,
                      ghost dst: map<string, StoredObject>)
    returns (ok: bool)
    requires comparator.destinationIndex.indexMap == dst && comparator.copyTransferScheduler.calls == []
    modifies comparator.destinationIndex`indexMap, comparator.copyTransferScheduler
    ensures var key, sent := comparator.destinationIndex.Key(), comparator.copyTransferScheduler.calls;
            && sent <= SentBy(comparator.opts, key, dst, objects)
            && (ok ==> SourceStreamed(comparator.opts, key, dst, objects, |objects|,
                                      comparator.destinationIndex.indexMap, sent))
            && (ok <==> forall o :: o in sent ==> !comparator.copyTransferScheduler.fails(o))
  {
    var index, scheduler := comparator.destinationIndex, comparator.copyTransferScheduler;
    ghost var opts, key := comparator.opts, index.Key();
    assert objects[..0] == [];
    for n := 0 to |objects|
      invariant SourceStreamed(opts, key, dst, objects, n, index.indexMap, scheduler.calls)
      invariant forall o :: o in scheduler.calls ==> !scheduler.fails(o)
    {
      StreamOneSource(opts, key, dst, objects, n, index.indexMap, scheduler.calls);
      ok := comparator.ProcessIfNecessary(objects[n]);
      if !ok {
        SentByGrows(opts, key, dst, objects, n + 1);
        return;
      }
    }
    SentByGrows(opts, key, dst, objects, |objects|);
    ok := true;
  }

  /** The finalizer of the other direction: what is left of the destination is cleaned, then the final job part is
      dispatched. */
  method FinalizeDownload(indexer: ObjectIndexer, cleaner: Processor, finalPart: JobParts.Outcome,
                          ghost key: string -> string,
                          ghost src: map<string, StoredObject>, ghost dst: map<string, StoredObject>)
    returns (ok: bool)
    requires indexer.Key() == key && IndexedBy(key, dst) && cleaner.calls == []
    requires indexer.indexMap == dst - src.Keys
    modifies cleaner
    ensures NoRepeats(cleaner.calls) && (forall o :: o in cleaner.calls ==> ToDelete(key, src, dst, o))
    ensures ok ==> forall o :: o in cleaner.calls <==> ToDelete(key, src, dst, o)
    ensures ok <==> (forall o :: o in cleaner.calls ==> !cleaner.fails(o)) && !finalPart.PartRefused?
  {
    ok := indexer.Traverse(cleaner);
    assert cleaner.calls[0..] == cleaner.calls;
    CleanTheRest(key, src, dst, indexer.indexMap, cleaner.calls);
    if !ok {
      return;
    }
    // nothing scheduled is no error
    ok := finalPart == JobParts.Done || finalPart == JobParts.NothingScheduled;
  }

  /** Download and service to service: the destination is listed and indexed, then the source is listed and sent
      on the way, and at the end what is left of the destination is cleaned.  Nothing is cleaned before the
      source listing is over.  Source paths may differ only in case even where the destination ignores case. */
  method SyncDestinationFirst(source: seq<StoredObject>, sourceEnd: ListingEnd,
                              destination: seq<StoredObject>, destinationEnd: ListingEnd, opts: Options,
                              caseInsensitive: bool, toLower: string -> string, scheduler: Processor,
                              cleaner: Processor,
                              finalPart: JobParts.Outcome)
    returns (ok: bool)
    requires scheduler != cleaner && scheduler.calls == [] && cleaner.calls == []
    requires UniqueKeys(if caseInsensitive then toLower else SamePath, destination)
    modifies scheduler, cleaner
    ensures var key := if caseInsensitive then toLower else SamePath;
            var src, dst := Index(key, source), Index(key, destination);
            && scheduler.calls <= SentBy(opts, key, dst, source)
            && NoRepeats(cleaner.calls) && (forall o :: o in cleaner.calls ==> ToDelete(key, src, dst, o))
            && (ok ==> scheduler.calls == SentBy(opts, key, dst, source)
                       && forall o :: o in cleaner.calls <==> ToDelete(key, src, dst, o))
    ensures var key := if caseInsensitive then toLower else SamePath;
            var src, dst := Index(key, source), Index(key, destination);
            UniqueKeys(key, source) ==>
              && (ok ==> IsPlan(opts, key, src, dst, scheduler.calls, cleaner.calls))
              && NoRepeats(scheduler.calls) && forall o :: o in scheduler.calls ==> ToTransfer(opts, key, src, dst, o)
    ensures ok <==> && !sourceEnd.Broken? && !destinationEnd.Broken? && !finalPart.PartRefused?
                    && (forall o :: o in scheduler.calls ==> !scheduler.fails(o))
                    && (forall o :: o in cleaner.calls ==> !cleaner.fails(o))
    ensures sourceEnd.Broken? || destinationEnd.Broken? || (exists o :: o in scheduler.calls && scheduler.fails(o)) ==>
              cleaner.calls == []
  {
    var indexer := new ObjectIndexer(caseInsensitive, toLower);
    ghost var key := indexer.Key();
    ghost var src, dst := Index(key, source), Index(key, destination);
    IndexHoldsTheObjects(key, destination);
    if UniqueKeys(key, source) {
      UniqueSentByIsThePlan(opts, key, dst, source);
    }
    var comparator := new SyncSourceComparator(indexer, scheduler, opts);
    FillIndex(indexer, destination);
    if destinationEnd.Broken? {
      return false;
    }
    ok := StreamSource(comparator, source, dst);
    assert source[..|source|] == source;
    if !ok {
      return;
    }
    if sourceEnd.Broken? {
      return false;
    }
    ok := FinalizeDownload(indexer, cleaner, finalPart, key, src, dst);
  }
}
