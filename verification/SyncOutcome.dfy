/** What complete sync runs do, in either direction, and what comes of them. */
module SyncOutcome {
  import opened Basics
  import JobParts
  import opened SyncPlan
  import opened SyncEnumeration

  // ---------- both directions ----------

  /** What tells objects apart: only a run that indexes the destination can be told that it ignores case. */
  function KeyFor(upload: bool, caseInsensitive: bool, toLower: string -> string): string -> string {
    if !upload && caseInsensitive then toLower else SamePath
  }

  /** A whole run without errors, in either direction. */
  method SyncOnce(upload: bool, source: seq<StoredObject>, destination: seq<StoredObject>, opts: Options,
                  caseInsensitive: bool, toLower: string -> string)
    returns (transfers: seq<StoredObject>, deletions: seq<StoredObject>)
    requires UniqueKeys(KeyFor(upload, caseInsensitive, toLower), source)
    requires UniqueKeys(KeyFor(upload, caseInsensitive, toLower), destination)
    ensures var key := KeyFor(upload, caseInsensitive, toLower);
            IsPlan(opts, key, Index(key, source), Index(key, destination), transfers, deletions)
  {
    var scheduler := new Processor(_ => false);
    var cleaner := new Processor(_ => false);
    var ok;
    if upload {
      ok := SyncSourceFirst(source, Complete, destination, Complete, opts, toLower, scheduler, cleaner, JobParts.Done);
    } else {
      ok := SyncDestinationFirst(source, Complete, destination, Complete, opts, caseInsensitive, toLower,
                                 scheduler, cleaner, JobParts.Done);
    }
    assert ok;
    return scheduler.calls, cleaner.calls;
  }

  /** What is sent and what is spared, on the objects' own fields. */
  method SyncSendsTheNewer(upload: bool, source: seq<StoredObject>, destination: seq<StoredObject>, opts: Options,
                           caseInsensitive: bool, toLower: string -> string)
    returns (transfers: seq<StoredObject>, deletions: seq<StoredObject>)
    requires UniqueKeys(KeyFor(upload, caseInsensitive, toLower), source)
    requires UniqueKeys(KeyFor(upload, caseInsensitive, toLower), destination)
    ensures var key := KeyFor(upload, caseInsensitive, toLower);
            !opts.disableComparison ==>
              forall s, d | s in source && d in destination && key(s.relativePath) == key(d.relativePath) ::
                if opts.comparisonHashType.MD5? && s.entityType.File? && s.md5.Some? then
                  s in transfers <==> s.md5 != d.md5
                else if !opts.preferSMBTime || (s.smbLastModifiedTime.None? && d.smbLastModifiedTime.None?) then
                  s in transfers <==> s.lastModifiedTime > d.lastModifiedTime
                else if s.smbLastModifiedTime.Some? && d.smbLastModifiedTime.Some? then
                  s in transfers <==> s.smbLastModifiedTime.value > d.smbLastModifiedTime.value
                else if s.smbLastModifiedTime.Some? then
                  s in transfers <==> s.smbLastModifiedTime.value > d.lastModifiedTime
                else s in transfers <==> s.lastModifiedTime > d.smbLastModifiedTime.value
    ensures var key := KeyFor(upload, caseInsensitive, toLower);
            forall d | d in destination :: d in deletions <==>
              forall s :: s in source ==> key(s.relativePath) != key(d.relativePath)
    ensures var key := KeyFor(upload, caseInsensitive, toLower);
            forall s | s in source && (forall d :: d in destination ==> key(s.relativePath) != key(d.relativePath)) ::
              s in transfers
    ensures opts.disableComparison ==> forall s :: s in source ==> s in transfers
    ensures (forall s :: s in transfers ==> s in source) && (forall d :: d in deletions ==> d in destination)
  {
    ghost var key := KeyFor(upload, caseInsensitive, toLower);
    transfers, deletions := SyncOnce(upload, source, destination, opts, caseInsensitive, toLower);
    IndexHoldsTheObjects(key, source);
    IndexHoldsTheObjects(key, destination);
    ghost var src, dst := Index(key, source), Index(key, destination);
    forall s, d | s in source && d in destination && key(s.relativePath) == key(d.relativePath)
      ensures Stale(opts, s, d) <==> s in transfers
    {
      assert s in transfers <==> ToTransfer(opts, key, src, dst, s);
    }
    forall s, d {
      StaleOnFields(opts, s, d);
    }
    forall d | d in destination
      ensures d in deletions <==> forall s :: s in source ==> key(s.relativePath) != key(d.relativePath)
    {
      assert d in deletions <==> ToDelete(key, src, dst, d);
      IndexedKeys(key, source, key(d.relativePath));
    }
    forall s | s in source && (forall d :: d in destination ==> key(s.relativePath) != key(d.relativePath))
      ensures s in transfers
    {
      IndexedKeys(key, destination, key(s.relativePath));
      assert ToTransfer(opts, key, src, dst, s);
    }
  }

  /** Both directions over the same two listings, neither of which failed: the same transfers and the same
      deletions, in whatever order the listings came. */
  method BothWays(source: seq<StoredObject>, destination: seq<StoredObject>,
                  sourceAgain: seq<StoredObject>, destinationAgain: seq<StoredObject>,
                  opts: Options, toLower: string -> string)
    returns (upload: seq<StoredObject>, uploadDeletes: seq<StoredObject>,
             download: seq<StoredObject>, downloadDeletes: seq<StoredObject>)
    requires UniqueKeys(SamePath, source) && UniqueKeys(SamePath, destination)
    requires UniqueKeys(SamePath, sourceAgain) && UniqueKeys(SamePath, destinationAgain)
    requires forall o :: o in source <==> o in sourceAgain
    requires forall o :: o in destination <==> o in destinationAgain
    ensures multiset(upload) == multiset(download) && multiset(uploadDeletes) == multiset(downloadDeletes)
    ensures IsPlan(opts, SamePath, Index(SamePath, source), Index(SamePath, destination), upload, uploadDeletes)
  {
    upload, uploadDeletes := SyncOnce(true, source, destination, opts, false, toLower);
    download, downloadDeletes := SyncOnce(false, sourceAgain, destinationAgain, opts, false, toLower);
    SameObjectsSameIndex(source, sourceAgain);
    SameObjectsSameIndex(destination, destinationAgain);
    PlansAgree(opts, SamePath, Index(SamePath, source), Index(SamePath, destination),
               upload, uploadDeletes, download, downloadDeletes);
  }

  /** What lands is found under the key of what was sent. */
  ghost predicate KeepsKeys(key: string -> string, land: StoredObject -> StoredObject) {
    forall o :: key(land(o).relativePath) == key(o.relativePath)
  }

  /** Listing what is stored gives all of it. */
  ghost predicate ListsBack(key: string -> string, list: map<string, StoredObject> -> seq<StoredObject>) {
    forall m :: IndexedBy(key, m) ==> UniqueKeys(key, list(m)) && Index(key, list(m)) == m
  }

  /** Some order in which the logs of a run take effect. */
  ghost predicate CarriesOut(carry: (seq<StoredObject>, seq<StoredObject>) -> seq<Event>) {
    forall t, d :: EventsOf(carry(t, d), t, d)
  }

  /** A run in either direction, its deletions and transfers carried out in any order, and a second run over any
      listing of what came of it, be it in the same or in the other direction.  Where the destination ignores case
      both index the destination, and no two source paths differ only in case. */
  method SyncTwice(uploads: (bool, bool), source: seq<StoredObject>, destination: seq<StoredObject>, opts: Options,
                   caseInsensitive: bool, toLower: string -> string, land: StoredObject -> StoredObject,
                   carry: (seq<StoredObject>, seq<StoredObject>) -> seq<Event>,
                   list: map<string, StoredObject> -> seq<StoredObject>)
    returns (transfers: seq<StoredObject>, transfersAgain: seq<StoredObject>, deletionsAgain: seq<StoredObject>)
    requires caseInsensitive ==> !uploads.0 && !uploads.1
    requires UniqueKeys(KeyFor(uploads.0, caseInsensitive, toLower), source)
    requires UniqueKeys(KeyFor(uploads.0, caseInsensitive, toLower), destination)
    requires KeepsKeys(KeyFor(uploads.0, caseInsensitive, toLower), land)
    requires ListsBack(KeyFor(uploads.0, caseInsensitive, toLower), list) && CarriesOut(carry)
    ensures deletionsAgain == []
    ensures transfersAgain == [] <==>
              forall o :: o in source ==> !opts.disableComparison && (o in transfers ==> LandsWell(opts, o, land(o)))
  {
    var key := KeyFor(uploads.0, caseInsensitive, toLower);
    ghost var src, dst := Index(key, source), Index(key, destination);
    IndexHoldsTheObjects(key, source);
    IndexHoldsTheObjects(key, destination);
    var deletions;
    transfers, deletions := SyncOnce(uploads.0, source, destination, opts, caseInsensitive, toLower);
    var events := carry(transfers, deletions);
    assert EventsOf(events, transfers, deletions);
    var after := Carry(key, land, Index(key, destination), events);
    CarryKeepsKeys(key, land, dst, events);
    assert KeyFor(uploads.1, caseInsensitive, toLower) == key;
    transfersAgain, deletionsAgain := SyncOnce(uploads.1, source, list(after), opts, caseInsensitive, toLower);
    SyncConverges(opts, key, land, src, dst, transfers, deletions, events, transfersAgain, deletionsAgain);
    assert forall o :: o in source ==> key(o.relativePath) in src && src[key(o.relativePath)] == o;
    assert forall p :: p in src ==> src[p] in source;
  }

  /** What the second run finds to send, on the objects' own fields. */
  method SyncTwiceOnFields(uploads: (bool, bool), source: seq<StoredObject>, destination: seq<StoredObject>,
                           opts: Options, caseInsensitive: bool, toLower: string -> string,
                           land: StoredObject -> StoredObject,
                           carry: (seq<StoredObject>, seq<StoredObject>) -> seq<Event>,
                           list: map<string, StoredObject> -> seq<StoredObject>)
    returns (transfers: seq<StoredObject>, transfersAgain: seq<StoredObject>, deletionsAgain: seq<StoredObject>)
    requires caseInsensitive ==> !uploads.0 && !uploads.1
    requires UniqueKeys(KeyFor(uploads.0, caseInsensitive, toLower), source)
    requires UniqueKeys(KeyFor(uploads.0, caseInsensitive, toLower), destination)
    requires KeepsKeys(KeyFor(uploads.0, caseInsensitive, toLower), land)
    requires ListsBack(KeyFor(uploads.0, caseInsensitive, toLower), list) && CarriesOut(carry)
    ensures deletionsAgain == []
    ensures opts.disableComparison ==> (transfersAgain == [] <==> source == [])
    ensures !opts.disableComparison && opts.comparisonHashType.NoHash? && !opts.preferSMBTime ==>
              (transfersAgain == [] <==>
                 forall o | o in source && o in transfers :: o.lastModifiedTime <= land(o).lastModifiedTime)
    ensures !opts.disableComparison && opts.comparisonHashType.NoHash? && opts.preferSMBTime
            && (forall o | o in source :: o.smbLastModifiedTime.Some? && land(o).smbLastModifiedTime.Some?) ==>
              (transfersAgain == [] <==>
                 forall o | o in source && o in transfers ::
                   o.smbLastModifiedTime.value <= land(o).smbLastModifiedTime.value)
    ensures !opts.disableComparison && opts.comparisonHashType.MD5?
            && (forall o | o in source :: o.entityType.File? && o.md5.Some?) ==>
              (transfersAgain == [] <==> forall o | o in source && o in transfers :: land(o).md5 == o.md5)
  {
    transfers, transfersAgain, deletionsAgain :=
      SyncTwice(uploads, source, destination, opts, caseInsensitive, toLower, land, carry, list);
    forall o {
      LandsWellOnFields(opts, o, land(o));
    }
    SomeElement(source);
  }

  lemma {:induction false} CarryKeepsKeys(key: string -> string, land: StoredObject -> StoredObject,
                                          dst: map<string, StoredObject>, events: seq<Event>)
    requires IndexedBy(key, dst) && KeepsKeys(key, land)
    ensures IndexedBy(key, Carry(key, land, dst, events))
  {
    if events == [] {
    } else {
      CarryKeepsKeys(key, land, dst, events[..|events| - 1]);
    }
  }

  // ---------- what a listing error can cost ----------

  /** With the source listed to its end no run, complete or not, calls the cleaner for a path the source has; where
      the destination ignores case, not even for one that differs from it in case only. */
  method CleanerSparesAListedSource(upload: bool, actual: seq<StoredObject>, listing: seq<StoredObject>,
                                    destination: seq<StoredObject>, destinationEnd: ListingEnd, opts: Options,
                                    caseInsensitive: bool, toLower: string -> string, scheduler: Processor,
                                    cleaner: Processor, finalPart: JobParts.Outcome)
    returns (ok: bool)
    requires scheduler != cleaner && scheduler.calls == [] && cleaner.calls == []
    requires Lists(actual, listing, Complete)
    requires UniqueKeys(KeyFor(upload, caseInsensitive, toLower), destination)
    modifies scheduler, cleaner
    ensures !HitsTheSource(KeyFor(upload, caseInsensitive, toLower), actual, cleaner.calls)
    ensures !HitsTheSource(SamePath, actual, cleaner.calls)
  {
    ghost var key := KeyFor(upload, caseInsensitive, toLower);
    if upload {
      ok := SyncSourceFirst(listing, Complete, destination, destinationEnd, opts, toLower,
                            scheduler, cleaner, finalPart);
    } else {
      ok := SyncDestinationFirst(listing, Complete, destination, destinationEnd, opts, caseInsensitive, toLower,
                                 scheduler, cleaner, finalPart);
    }
    DeletionsSpareTheListed(key, listing, Index(key, destination), cleaner.calls);
    forall o, d | o in actual && d in cleaner.calls ensures key(o.relativePath) != key(d.relativePath) {
      assert o in listing;
    }
  }

  lemma DeletionsSpareTheListed(key: string -> string, listing: seq<StoredObject>, dst: map<string, StoredObject>,
                                deletions: seq<StoredObject>)
    requires forall d :: d in deletions ==> ToDelete(key, Index(key, listing), dst, d)
    ensures forall o, d :: o in listing && d in deletions ==> key(o.relativePath) != key(d.relativePath)
  {
    forall o, d | o in listing && d in deletions ensures key(o.relativePath) != key(d.relativePath) {
      assert ToDelete(key, Index(key, listing), dst, d);
      IndexedKeys(key, listing, key(o.relativePath));
    }
  }

  /** The source has an object and so has the destination; listing the source ends at once with an accepted error.
      The run succeeds, in either direction, and deletes the destination's copy. */
  method AnAcceptedErrorDeletes(upload: bool, o: StoredObject, opts: Options, toLower: string -> string)
    returns (ok: bool, deletions: seq<StoredObject>)
    ensures Lists([o], [], NotFound)
    ensures ok && deletions == [o] && HitsTheSource(SamePath, [o], deletions)
  {
    var scheduler := new Processor(_ => false);
    var cleaner := new Processor(_ => false);
    if upload {
      ok := SyncSourceFirst([], NotFound, [o], Complete, opts, toLower, scheduler, cleaner, JobParts.NothingScheduled);
    } else {
      ok := SyncDestinationFirst([], NotFound, [o], Complete, opts, false, toLower, scheduler, cleaner,
                                 JobParts.NothingScheduled);
    }
    MissedObjectIsDeleted(opts, o);
    PlansAgree(opts, SamePath, Index(SamePath, []), Index(SamePath, [o]), [], [o], scheduler.calls, cleaner.calls);
    deletions := cleaner.calls;
    assert |deletions| == |multiset(deletions)| == |multiset([o])| == 1;
    assert deletions[0] in multiset(deletions);
  }

  lemma SameObjectsSameIndex(a: seq<StoredObject>, b: seq<StoredObject>)
    requires UniqueKeys(SamePath, a) && UniqueKeys(SamePath, b)
    requires forall o :: o in a <==> o in b
    ensures Index(SamePath, a) == Index(SamePath, b)
  {
    IndexHoldsTheObjects(SamePath, a);
    IndexHoldsTheObjects(SamePath, b);
    var ia, ib := Index(SamePath, a), Index(SamePath, b);
    forall k | k in ia ensures k in ib && ib[k] == ia[k] {
      assert ia[k] in a;
    }
    forall k | k in ib ensures k in ia {
      assert ib[k] in b;
    }
  }
}
